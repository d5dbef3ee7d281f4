/** vm.c's page-table code and kalloc.c's free list. A panic is the result `ok == false`. */
module Vm {
  import opened VmImage

  const PGSIZE := 4096
  const KERNBASE := 0x8000_0000
  const TOP := 0x1_0000_0000

  /** PGROUNDDOWN, as a page number: the page that holds byte va. */
  function PageDown(va: nat): (p: nat)
    ensures 4096 * p <= va < 4096 * p + 4096
  {
    va / PGSIZE
  }

  /** PGROUNDUP, as a page number: the first page that begins at sz or above. */
  function PageUp(sz: nat): (p: nat)
    ensures 4096 * p - 4096 < sz <= 4096 * p
  {
    (sz + PGSIZE - 1) / PGSIZE
  }

  /** The tables of all directories denote the same. */
  ghost predicate SameMap(m: Mem, n: Mem, spaces: set<nat>) {
    forall d, p :: d in spaces && 0 <= p < PAGES ==> PteAt(n, d, p) == PteAt(m, d, p)
  }

  /** The bytes of owned pages are untouched. */
  ghost predicate DataKept(m: Mem, n: Mem, own: map<nat, Slot>) {
    forall f :: f in own && f in m.frames && m.frames[f].Data? ==> f in n.frames && n.frames[f] == m.frames[f]
  }

  /** Owners stay; directory d may have more page tables. */
  ghost predicate Grew(own: map<nat, Slot>, own2: map<nat, Slot>, d: nat) {
    && (forall f :: f in own ==> f in own2 && own2[f] == own[f])
    && (forall f :: f in own2 && f !in own ==> own2[f].Tab? && own2[f].d == d)
  }

  ghost predicate Suffix(a: seq<nat>, b: seq<nat>) {
    |b| <= |a| && b == a[|a| - |b|..]
  }

  /** In addresses: directory d has the pages of bytes [0, sz) and no other user page. */
  ghost predicate Sized(m: Mem, d: nat, sz: nat) {
    && (forall va :: 0 <= va < sz && va < KERNBASE ==> Present(PteAt(m, d, va / 4096)))
    && (forall p :: 0 <= p < UPAGES && sz <= 4096 * p ==> !Present(PteAt(m, d, p)))
  }

  /** The same, but for the pages that begin in [lo, hi), which it does not have. */
  ghost predicate SizedBut(m: Mem, d: nat, sz: nat, lo: nat, hi: nat) {
    forall p :: 0 <= p < UPAGES ==> (Present(PteAt(m, d, p)) <==> 4096 * p < sz && !(lo <= 4096 * p < hi))
  }

  function BytesAt(m: Mem, d: nat, p: nat): seq<nat>
    requires p < PAGES
  {
    var f := FrameOf(PteAt(m, d, p));
    if f in m.frames && m.frames[f].Data? then m.frames[f].b else []
  }

  /** The pages of bytes [0, sz) of d are the same in n as in m, with the same bytes. */
  ghost predicate KeptBelow(m: Mem, n: Mem, d: nat, sz: nat) {
    forall va :: 0 <= va < sz && va < KERNBASE ==>
      && PteAt(n, d, va / 4096) == PteAt(m, d, va / 4096)
      && (Present(PteAt(m, d, va / 4096)) ==> BytesAt(n, d, va / 4096) == BytesAt(m, d, va / 4096))
  }

  /** The pages of bytes [lo, hi) that begin at lo or above are zeroed user pages, in frames not
      in `own`. */
  ghost predicate FreshAbove(m: Mem, own: map<nat, Slot>, d: nat, lo: nat, hi: nat) {
    forall va :: lo <= va < hi && va < KERNBASE && lo <= 4096 * (va / 4096) ==>
      Holding(m, own, d, va / 4096, ZeroPage(), 7)
  }

  /** Directory c has, for every byte of [0, sz), a page with the bytes and the flags of that of
      d in m, in a frame not in `own`. */
  ghost predicate SamePages(m: Mem, d: nat, n: Mem, own: map<nat, Slot>, c: nat, sz: nat) {
    forall va :: 0 <= va < sz && va < KERNBASE ==>
      Holding(n, own, c, va / 4096, BytesAt(m, d, va / 4096), Flags(PteAt(m, d, va / 4096)))
  }

  class Vm {
    var m: Mem
    ghost var spaces: set<nat>
    ghost var own: map<nat, Slot>
    ghost var free: seq<nat>

    ghost predicate Valid()
      reads this
    {
      Inv(m, spaces, own, free)
    }

    /** freerange at boot, over the frames from lo up to hi: all of them free, once each. */
    constructor (lo: nat, hi: nat)
      requires 0 < lo
      ensures Valid() && spaces == {} && own == map[] && forall f :: f in free <==> lo <= f < hi
      ensures |free| == if lo <= hi then hi - lo else 0
    {
      var all := map f: nat | lo <= f < hi :: Unused(f);
      ghost var hand: map<nat, Slot> := map f: nat | lo <= f < hi :: Untaken(f);
      var mem := Mem(all, 0);
      ghost var list: seq<nat> := [];
      BootInv(mem, hand);
      hide Inv;
      var f := lo;
      while f < hi
        invariant lo <= f && Inv(mem, {}, hand, list)
        invariant forall x :: x in hand <==> f <= x < hi
        invariant forall x :: x in hand ==> hand[x] == Other
        invariant forall x :: x in list <==> lo <= x < f && x < hi
        invariant |list| == f - lo && (f <= hi || list == [])
      {
        PushInv(mem, {}, hand, list, f);
        mem := Mem(mem.frames[f := Run(mem.head)], f);
        hand := hand - {f};
        list := [f] + list;
        f := f + 1;
      }
      m, spaces, own, free := mem, {}, hand, list;
    }

    /** kalloc: the first frame of the list, in hand; 0 when there is none. */
    method Kalloc() returns (f: nat)
      requires Valid()
      modifies this`m, this`own, this`free
      ensures Valid()
      ensures old(free) == [] ==> f == 0 && m == old(m) && own == old(own) && free == old(free)
      ensures old(free) != [] ==> f == old(free)[0] && f != 0 && f !in old(own) && own == old(own)[f := Other]
      ensures old(free) != [] ==> free == old(free)[1..]
      ensures m.frames == old(m).frames
    {
      f := m.head;
      if f != 0 {
        PopInv(m, spaces, own, free);
        m := m.(head := m.frames[f].next);
        own := own[f := Other];
        free := free[1..];
      }
    }

    /** kfree's writes; a panic exactly on an address that is no allocatable frame. */
    method Kfree(f: nat) returns (ok: bool)
      modifies this`m
      ensures ok <==> f in old(m).frames
      ensures m == if ok then Pushed(old(m), f) else old(m)
    {
      if f !in m.frames {
        return false;
      }
      m := Mem(m.frames[f := Run(m.head)], f);
      return true;
    }

    /** walkpgdir: the table for page p, created if asked and there is a frame. What the
        tables denote does not change. */
    method Walk(d: nat, p: nat, alloc: bool) returns (t: nat, ok: bool)
      requires Valid() && d in spaces && p < PAGES
      modifies this`m, this`own, this`free
      ensures Valid() && SameMap(old(m), m, spaces) && Grew(old(own), own, d) && DataKept(old(m), m, old(own))
      ensures Suffix(old(free), free)
      ensures ok ==> Present(Pde(m, d, p / NPT)) && t == TableOf(m, d, p)
      ensures Present(Pde(old(m), d, p / NPT)) ==> ok && m == old(m) && own == old(own) && free == old(free)
      ensures !ok || !alloc ==> m == old(m) && own == old(own) && free == old(free)
      ensures !ok ==> !Present(Pde(m, d, p / NPT)) && (!alloc || free == [])
      ensures |free| + |Tabs(m, d)| == |old(free)| + |Tabs(old(m), d)|
      ensures ok ==> Tabs(m, d) == Tabs(old(m), d) + {TabNo(p)}
    {
      hide Inv, SameMap, Grew, DataKept, Suffix, Present, TableAt, Zeros, Pte, PteAt, FrameOf, Tabs;
      InTabs(m, d, p);
      WalkNone(m, spaces, own, free, d);
      var i := p / NPT;
      var e := TableAt(m, d)[i];
      if Present(e) {
        return FrameOf(e), true;
      }
      if !alloc {
        return 0, false;
      }
      ghost var m0, own0, free0 := m, own, free;
      var f := Kalloc();
      if f == 0 {
        return 0, false;
      }
      SameTable(m0, m, d);
      WithTableInv(m, spaces, own, free, d, i, f);
      NewTable(m0, own0, free0, m, spaces, own, free, d, p, f);
      SameTabs(m0, m, d);
      NotDir(m, spaces, own, free, d, f);
      WithTableTabs(m, d, i, f);
      m := m.(frames := m.frames[f := Table(Zeros())]);
      m := m.(frames := m.frames[d := Table(TableAt(m, d)[i := Pte(f, 6)])]);
      own := own[f := Tab(d, i)];
      return f, true;
    }

    /** One turn of mappages. */
    method MapPage(d: nat, p: nat, f: nat, perm: nat) returns (r: int, ok: bool)
      requires Valid() && d in spaces && p < PAGES && perm < 4096
      requires p < UPAGES ==> f in own && own[f].Other? && f in m.frames && m.frames[f].Data?
      modifies this`m, this`own, this`free
      ensures ok <==> !Present(PteAt(old(m), d, p))
      ensures ok ==> Valid() && (r == 0 || r == -1) && DataKept(old(m), m, old(own)) && Suffix(old(free), free)
      ensures ok && r == 0 ==> Mapped(old(m), m, spaces, d, p, 1, f, perm) && OwnMoved(old(own), own, d, p, f, 1)
      ensures ok && r == -1 ==> m == old(m) && own == old(own) && free == old(free) && free == []
      ensures ok && r == -1 ==> TabNo(p) !in Tabs(m, d)
      ensures ok ==> |free| + |Tabs(m, d)| == |old(free)| + |Tabs(old(m), d)|
      ensures ok && r == 0 ==> Tabs(m, d) == Tabs(old(m), d) + {TabNo(p)}
    {
      hide Inv, SameMap, Grew, DataKept, Suffix, Present, TableAt, Pte, PteAt, FrameOf, Mapped, OwnMoved, Tabs;
      InTabs(m, d, p);
      ghost var m0, own0 := m, own;
      PresentTable(m, d, p);
      WalkNone(m, spaces, own, free, d);
      var t;
      t, ok := Walk(d, p, true);
      if !ok {
        return -1, true;
      }
      SameMapAt(m0, m, spaces, d, p);
      TableEntry(m, d, p);
      if Present(TableAt(m, t)[p % NPT]) {
        return 0, false;
      }
      GrewAt(own0, own, d, f);
      KeptData(m0, m, own0, f);
      MapPageDenotes(m0, m, spaces, own, free, d, p, f, perm);
      MapPageKeeps(m0, own0, m, spaces, own, free, d, p, f, Pte(f, perm));
      WithPteTabs(m, spaces, own, free, d, p, Pte(f, perm));
      if p < UPAGES {
        PageInv(m, spaces, own, free, d, p, f, perm);
        own := own[f := User(d, p)];
      } else {
        KernelInv(m, spaces, own, free, d, p, Pte(f, perm));
      }
      m := m.(frames := m.frames[t := Table(TableAt(m, t)[p % NPT := Pte(f, perm)])]);
      return 0, true;
    }

    /** mappages' loop over pages a0 to last. The test for the last page comes before the
        step in the source, where the address would wrap. */
    method MapRange(d: nat, a0: nat, last: nat, f0: nat, perm: nat) returns (r: int, ok: bool, ghost k: nat)
      requires Valid() && d in spaces && perm < 4096 && a0 <= last < PAGES && Ready(m, own, a0, last + 1 - a0, f0)
      modifies this`m, this`own, this`free
      ensures k <= last + 1 - a0
      ensures ok ==> Valid() && Ranged(old(m), old(own), old(free), m, own, free, spaces, d, a0, k, f0, perm)
      ensures ok && r == 0 ==> k == last + 1 - a0
      ensures ok && r != 0 ==> r == -1 && free == [] && k < last + 1 - a0
      ensures !ok ==> a0 + k <= last && Present(PteAt(old(m), d, a0 + k))
      ensures ok ==> |free| + |Tabs(m, d)| == |old(free)| + |Tabs(old(m), d)|
      ensures ok ==> Tabs(m, d) == Tabs(old(m), d) + TabsOf(a0, k)
      ensures ok && r != 0 ==> TabNo(a0 + k) !in Tabs(m, d)
    {
      hide Inv, Ready, PteAt, Present, Ranged, DataKept, Suffix, Mapped, OwnMoved, Tabs, TabsOf, TabNo;
      TabsOfNext(a0, 0);
      ghost var m0, own0, free0 := m, own, free;
      var a, f := a0, f0;
      k := 0;
      RangedNone(m, own, free, spaces, d, a0, f0, perm);
      while a <= last
        invariant a0 <= a <= last + 1 && k == a - a0 && f == f0 + k
        invariant Valid() && Ranged(m0, own0, free0, m, own, free, spaces, d, a0, k, f0, perm)
        invariant |free| + |Tabs(m, d)| == |free0| + |Tabs(m0, d)| && Tabs(m, d) == Tabs(m0, d) + TabsOf(a0, k)
        decreases last - a
      {
        ghost var m1, own1, free1 := m, own, free;
        RangedAt(m0, own0, free0, m, own, free, spaces, d, a0, k, last + 1 - a0, f0, perm);
        r, ok := MapPage(d, a, f, perm);
        if !ok {
          return 0, false, k;
        }
        if r < 0 {
          return -1, true, k;
        }
        RangedMore(m0, own0, free0, m1, own1, free1, m, own, free, spaces, d, a0, k, f0, perm);
        TabsOfNext(a0, k);
        a, f, k := a + 1, f + 1, k + 1;
      }
      return 0, true, k;
    }

    /** mappages: on success the tables denote what they denoted, but for the pages of the
        range, which are mapped in turn to frames f0, f0 + 1, and so on. It fails when a
        page table cannot be had, exactly when there are fewer free frames than page tables
        missing, with a prefix mapped; it panics exactly when it comes to a page that is mapped
        already. */
    method Mappages(d: nat, va: nat, size: nat, f0: nat, perm: nat) returns (r: int, ok: bool, ghost k: nat)
      requires Valid() && d in spaces && perm < 4096 && size > 0 && va + size <= TOP
      requires Ready(m, own, PageDown(va), PageDown(va + size - 1) + 1 - PageDown(va), f0)
      modifies this`m, this`own, this`free
      ensures k <= PageDown(va + size - 1) + 1 - PageDown(va)
      ensures ok ==> Valid() && Ranged(old(m), old(own), old(free), m, own, free, spaces, d, PageDown(va), k, f0, perm)
      ensures ok && r == 0 ==> k == PageDown(va + size - 1) + 1 - PageDown(va)
      ensures ok && r == 0 ==>
        forall x :: va <= x < va + size ==> PteAt(m, d, x / 4096) == Pte(f0 + (x / 4096 - va / 4096), perm)
      ensures ok && r != 0 ==> r == -1 && free == [] && k < PageDown(va + size - 1) + 1 - PageDown(va)
      ensures !ok ==> PageDown(va) + k <= PageDown(va + size - 1) && Present(PteAt(old(m), d, PageDown(va) + k))
      ensures ok ==> |free| + |Tabs(m, d)| == |old(free)| + |Tabs(old(m), d)|
      ensures ok ==> Tabs(m, d) == Tabs(old(m), d) + TabsOf(PageDown(va), k)
      ensures ok && r != 0 ==> TabNo(PageDown(va) + k) !in Tabs(m, d)
      ensures ok ==>
        (r == 0 <==>
           TabCount(old(m), d, PageDown(va), PageDown(va + size - 1) + 1 - PageDown(va))
           <= |old(free)| + |Tabs(old(m), d)|)
    {
      hide Inv, Ready, Ranged, Tabs, TabsOf, TabNo;
      ghost var a, n, tabs := PageDown(va), PageDown(va + size - 1) + 1 - PageDown(va), Tabs(m, d);
      r, ok, k := MapRange(d, PageDown(va), PageDown(va + size - 1), f0, perm);
      if ok && r == 0 {
        RangedBytes(old(m), old(own), old(free), m, own, free, spaces, d, va, size, f0, perm);
      }
      if ok && r != 0 {
        TabsOfPart(a, k, n);
        MoreThan(Tabs(m, d), tabs + TabsOf(a, n), TabNo(a + k));
      }
    }

    /** One turn of deallocuvm at page a, which its loop visits. */
    method FreePage(d: nat, a: nat, ghost m0: Mem, ghost own0: map<nat, Slot>, ghost free0: seq<nat>, ghost lo: nat,
            ghost b: nat) returns (table: bool, ok: bool)
      requires Valid() && d in spaces && Inv(m0, spaces, own0, free0)
      requires lo <= a < UPAGES && Visits(m0, d, lo, a) && a < b <= After(m0, d, a)
      requires Dropped(m0, own0, m, own, spaces, d, lo, a)
      modifies this`m, this`own, this`free
      ensures ok && Valid() && Dropped(m0, own0, m, own, spaces, d, lo, b)
      ensures table <==> Present(Pde(m0, d, a / NPT))
    {
      hide Inv, Dropped, PteAt, Present, Visits, TableAt, After, Unpaged, Pushed;
      DroppedAt(m0, own0, m, own, spaces, d, lo, a);
      var t;
      t, table := Walk(d, a, false);
      if !table {
        PresentTable(m0, d, a);
        DroppedSkip(m0, own0, free0, m, own, spaces, d, lo, a, b);
        return table, true;
      }
      TableEntry(m, d, a);
      var e := TableAt(m, t)[a % NPT];
      if Present(e) {
        UserOwned(m, spaces, own, free, d, a);
        UnpageInv(m, spaces, own, free, d, a);
        DroppedPage(m0, own0, m, own, free, spaces, d, lo, a, b);
        UnpagedSteps(m, d, a);
        var f := FrameOf(e);
        if f == 0 {
          return table, false;
        }
        ok := Kfree(f);
        m := m.(frames := m.frames[t := Table(TableAt(m, t)[a % NPT := 0])]);
        own := own - {f};
        free := [f] + free;
      } else {
        DroppedSkip(m0, own0, free0, m, own, spaces, d, lo, a, b);
      }
      return table, true;
    }

    /** deallocuvm: the pages its stride visits in [newsz, oldsz), rounded up, are unmapped
        and their frames freed; nothing else changes. */
    method Deallocuvm(d: nat, oldsz: nat, newsz: nat) returns (r: nat, ok: bool)
      requires Valid() && d in spaces && oldsz <= KERNBASE
      modifies this`m, this`own, this`free
      ensures ok && Valid()
      ensures newsz >= oldsz ==> r == oldsz && m == old(m) && own == old(own) && free == old(free)
      ensures newsz < oldsz ==> r == newsz && PageUp(newsz) <= PageUp(oldsz) <= UPAGES
      ensures newsz < oldsz ==> Dropped(old(m), old(own), m, own, spaces, d, PageUp(newsz), PageUp(oldsz))
      ensures newsz < oldsz ==> KeptBelow(old(m), m, d, newsz)
      ensures newsz < oldsz ==> forall size :: 0 <= size <= KERNBASE && Sized(old(m), d, size) ==>
        SizedBut(m, d, size, newsz, oldsz)
    {
      hide Inv, Dropped, Visits, Present, Pde, PteAt, Sized, SizedBut, KeptBelow;
      if newsz >= oldsz {
        return oldsz, true;
      }
      ghost var m0, own0, free0 := m, own, free;
      ghost var lo, hi := PageUp(newsz), PageUp(oldsz);
      var a := PageUp(newsz);
      DroppedNone(m, own, spaces, d, lo);
      VisitsFirst(m, d, lo);
      ok := true;
      while a * PGSIZE < oldsz
        invariant lo <= a && ok && Valid() && (a < hi ==> Visits(m0, d, lo, a))
        invariant Dropped(m0, own0, m, own, spaces, d, lo, if a < hi then a else hi)
        decreases oldsz - a * PGSIZE
      {
        ghost var b := if After(m0, d, a) < hi then After(m0, d, a) else hi;
        var table;
        table, ok := FreePage(d, a, m0, own0, free0, lo, b);
        VisitsAfter(m0, d, lo, a, hi);
        if !table {
          a := a + (NPT - 1);
        }
        a := a + 1;
      }
      DroppedKeeps(m0, own0, free0, m, own, spaces, d, newsz, oldsz);
      DroppedSizes(m0, own0, m, own, spaces, d, newsz, oldsz);
      return newsz, true;
    }

    /** freevm's loop: every page table, in hand already, back to the list. */
    method FreeTables(d: nat, ghost m1: Mem, ghost all: set<nat>, ghost own1: map<nat, Slot>, ghost free1: seq<nat>)
      returns (ok: bool)
      requires Inv(m1, all, own1, free1) && d in all && spaces == all - {d} && Valid()
      requires Shed(m1, own1, m, own, spaces, d, 0)
      modifies this`m, this`own, this`free
      ensures ok && Valid() && Shed(m1, own1, m, own, spaces, d, NPT)
    {
      hide Inv, Shed, Present, Pushed, TableAt, FrameOf, InHand;
      ok := true;
      var i := 0;
      while i < NPT
        invariant 0 <= i <= NPT && ok && Valid() && Shed(m1, own1, m, own, spaces, d, i)
      {
        ShedSame2(m1, own1, m, own, spaces, d, i);
        ShedNext(m1, all, own1, free1, m, own, free, d, i);
        var e := TableAt(m, d)[i];
        if Present(e) {
          var f := FrameOf(e);
          PushInv(m, spaces, own, free, f);
          ok := Kfree(f);
          own := own - {f};
          free := [f] + free;
        }
        i := i + 1;
      }
    }

    /** freevm: every user page, page table and the directory itself go back to the free
        list, once each; no other frame changes hands, and no other directory changes. */
    method Freevm(d: nat) returns (ok: bool)
      requires Valid() && d in spaces
      modifies this
      ensures ok && Valid() && spaces == old(spaces) - {d} && Released(old(m), old(own), m, own, spaces, d)
    {
      hide Inv, Shed, Dropped, Released, Exactly, Pushed, Passed, TableAt, PteAt, InHand;
      ghost var m0, own0 := m, own;
      var r;
      r, ok := Deallocuvm(d, KERNBASE, 0);
      FreesWhole(m0, own0, m, own, spaces, d);
      ghost var m1, all, own1, free1 := m, spaces, own, free;
      RetireExactly(m, spaces, own, free, d);
      ShedNone(m, spaces, own, free, d);
      spaces := spaces - {d};
      own := InHand(own, d);
      ok := FreeTables(d, m1, all, own1, free1);
      ShedAll(m0, own0, m1, all, own1, free1, m, own, free, d);
      PushInv(m, spaces, own, free, d);
      ok := Kfree(d);
      own := own - {d};
      free := [d] + free;
    }

    /** mappages for one user page. */
    method MapUser(d: nat, p: nat, f: nat, perm: nat) returns (r: int)
      requires Valid() && d in spaces && p < UPAGES && perm < 4096 && !Present(PteAt(m, d, p))
      requires f in own && own[f].Other? && f in m.frames && m.frames[f].Data?
      modifies this`m, this`own, this`free
      ensures Valid() && (r == 0 || r == -1) && DataKept(old(m), m, old(own)) && Suffix(old(free), free)
      ensures Mapped(old(m), m, spaces, d, p, if r == 0 then 1 else 0, f, perm)
      ensures OwnMoved(old(own), own, d, p, f, if r == 0 then 1 else 0) && (r == 0 ==> f in own && own[f] == User(d, p))
      ensures |free| + |Tabs(m, d)| == |old(free)| + |Tabs(old(m), d)|
      ensures r == 0 ==> Tabs(m, d) == Tabs(old(m), d) + {TabNo(p)}
      ensures r == -1 ==> old(free) == [] && free == [] && TabNo(p) !in Tabs(old(m), d)
    {
      hide Inv, Present, PteAt, Mapped, OwnMoved, DataKept, Suffix, Ranged, Ready, Pte, Tabs, TabsOf, TabNo, TabCount,
        PageDown;
      OneTab(m, d, p);
      OnePage(p);
      ReadyOne(m, own, p, f);
      var ok;
      ghost var k;
      ghost var m0, own0, free0 := m, own, free;
      r, ok, k := Mappages(d, p * PGSIZE, PGSIZE, f, perm);
      RangedParts(m0, own0, free0, m, own, free, spaces, d, p, k, f, perm);
      if r == 0 {
        MappedOwner(m0, m, spaces, own, free, d, p, f, perm);
      }
    }

    /** kalloc, the bytes, mappages: a new user page. r is 0, or -1 when there is no frame
        for the page, or -2 when there is one but none for its page table; that one is lost. */
    method NewPage(d: nat, p: nat, b: seq<nat>, perm: nat) returns (r: int, ghost lost: nat)
      requires Valid() && d in spaces && p < UPAGES && perm < 4096 && !Present(PteAt(m, d, p))
      modifies this`m, this`own, this`free
      ensures Valid() && (r == 0 || r == -1 || r == -2)
      ensures r == 0 ==> PageAdded(old(m), old(own), m, own, spaces, d, p, b, perm)
      ensures r == -1 ==> m == old(m) && own == old(own) && free == old(free) && free == []
      ensures r == -2 ==> PageLost(old(m), old(own), m, own, spaces, d, lost) && free == [] && lost != 0 && lost in own
      ensures r == -2 ==> own[lost] == Lost
      ensures old(free) == [] ==> r == -1
      ensures r == 0 ==> |free| + |Tabs(m, d)| == |old(free)| + |Tabs(old(m), d)| - 1
      ensures r == 0 ==> Tabs(m, d) == Tabs(old(m), d) + {TabNo(p)}
      ensures r == -2 ==> |old(free)| == 1 && TabNo(p) !in Tabs(old(m), d)
    {
      hide Inv, Present, PteAt, Mapped, OwnMoved, DataKept, Suffix, Pte, PageAdded, PageLost, Tabs, TabNo, TableAt;
      lost := 0;
      ghost var m0, own0 := m, own;
      var f := Kalloc();
      if f == 0 {
        return -1, 0;
      }
      FillInv(m, spaces, own, free, f, b);
      FillKeeps(m0, m, spaces, own0, own, free, f, b);
      FillTabs(m0, m, spaces, own, free, d, f, b);
      m := m.(frames := m.frames[f := Data(b)]);
      SameMapAt(m0, m, spaces, d, p);
      ghost var m1, own1 := m, own;
      r := MapUser(d, p, f, perm);
      if r == 0 {
        AddedPage(m0, own0, m1, own1, m, own, spaces, free, d, p, f, b, perm);
        return 0, 0;
      }
      LostPage(m0, own0, m1, own1, m, own, spaces, free, d, p, f, perm);
      own := own[f := Lost];
      return -2, f;
    }

    /** allocuvm, for a directory with user pages [0, oldsz). Either all pages up to newsz
        are there, zeroed and nobody else's, or 0 is returned and the pages are as before.
        When a page table cannot be had, a frame is lost (`lost` is 0 if none is); and if
        that was for the last page, newsz is returned although that page is missing. Which
        of these happens follows from the number of free frames alone. */
    method Allocuvm(d: nat, oldsz: nat, newsz: nat) returns (r: nat, ghost lost: nat)
      requires Valid() && d in spaces && oldsz <= KERNBASE && Sized(m, d, oldsz)
      modifies this`m, this`own, this`free
      ensures Valid() && (lost != 0 ==> lost in own && own[lost] == Lost && lost !in old(own))
      ensures newsz >= KERNBASE ==> r == 0 && m == old(m) && own == old(own) && free == old(free)
      ensures newsz < oldsz && newsz < KERNBASE ==> r == oldsz && m == old(m) && own == old(own) && free == old(free)
      ensures oldsz <= newsz < KERNBASE ==> r == newsz || r == 0
      ensures oldsz <= newsz < KERNBASE ==> KeptBelow(old(m), m, d, oldsz)
      ensures oldsz <= newsz < KERNBASE && r == newsz && lost == 0 ==>
        Sized(m, d, newsz) && FreshAbove(m, old(own), d, oldsz, newsz)
      ensures oldsz <= newsz < KERNBASE && r == newsz && lost != 0 ==>
        newsz > 0 && Sized(m, d, 4096 * ((newsz - 1) / 4096)) && !Present(PteAt(m, d, (newsz - 1) / 4096))
      ensures oldsz <= newsz < KERNBASE && r == 0 && newsz > 0 ==> Sized(m, d, oldsz)
      ensures oldsz <= newsz < KERNBASE && r == newsz && newsz > 0 ==>
        Grown(old(m), old(own), m, own - {lost}, spaces, d, PageUp(oldsz),
          if lost == 0 then PageUp(newsz) else PageUp(newsz) - 1)
      ensures oldsz <= newsz < KERNBASE && r == newsz && newsz > 0 && lost != 0 ==>
        free == [] && PageUp(oldsz) < PageUp(newsz)
      ensures oldsz <= newsz < KERNBASE && r == 0 && newsz > 0 ==>
        Restored(old(m), old(own), m, own - {lost}, spaces, d, PageUp(oldsz))
      ensures oldsz <= newsz < KERNBASE ==> PageUp(oldsz) <= PageUp(newsz)
      ensures oldsz <= newsz < KERNBASE ==>
        (r == newsz && lost == 0 <==> Left(|old(free)|, Tabs(old(m), d), PageUp(oldsz), PageUp(newsz)) >= 0)
      ensures oldsz <= newsz < KERNBASE ==>
        (lost != 0 <==> RunsOutAtTable(|old(free)|, Tabs(old(m), d), PageUp(oldsz), PageUp(newsz)))
      ensures oldsz <= newsz < KERNBASE && lost != 0 ==> PageUp(oldsz) < PageUp(newsz)
      ensures oldsz <= newsz < KERNBASE && lost != 0 ==>
        (r == newsz <==> Left(|old(free)|, Tabs(old(m), d), PageUp(oldsz), PageUp(newsz) - 1) == 1)
    {
      hide Inv, Present, PteAt, Grown, Restored, Exactly, PageAdded, PageLost, Dropped, Tabs, TabsOf, TabNo, Left,
        RunsOutAtTable, Sized, SizedBut, KeptBelow, FreshAbove;
      SizedExactly(m, d, oldsz);
      lost := 0;
      if newsz >= KERNBASE {
        return 0, 0;
      }
      if newsz < oldsz {
        return oldsz, 0;
      }
      ghost var m0, own0, free0 := m, own, free;
      ghost var lo, hi := PageUp(oldsz), PageUp(newsz);
      NoZero(m, spaces, own, free);
      GrownNone(m, own, spaces, d, lo);
      ghost var total, tabs := |free|, Tabs(m, d);
      LeftNone(total, tabs, lo);
      var a := PageUp(oldsz);
      ghost var top := a;
      while a * PGSIZE < newsz
        invariant lo <= top <= a <= hi && Valid() && top == (if lost == 0 then a else a - 1)
        invariant Grown(m0, own0, m, own - {lost}, spaces, d, lo, top)
        invariant lost != 0 ==> free == [] && lost in own && own[lost] == Lost && lost !in own0
        invariant lost == 0 ==> |free| == Left(total, tabs, lo, a) && Tabs(m, d) == tabs + TabsOf(lo, a - lo)
        invariant lost != 0 ==> RunsOutAtTable(total, tabs, lo, a) && a > lo && Left(total, tabs, lo, a - 1) == 1
        decreases newsz - a * PGSIZE
      {
        GrownVacant(m0, own0, m, own - {lost}, spaces, d, lo, top, a);
        NoZero(m, spaces, own, free);
        ghost var m1, own1, free1 := m, own, free;
        LeftNext(total, tabs, lo, a, hi);
        OneMore(tabs + TabsOf(lo, a - lo), TabNo(a));
        var k;
        ghost var f;
        k, f := NewPage(d, a, ZeroPage(), 6);
        if k == -1 {
          var ok;
          r, ok := Deallocuvm(d, newsz, oldsz);
          GrownBack(m0, own0, free0, m1, own1, free1, m, own, free, spaces, d, lo, top, hi, lost);
          RestoredSizes(m0, own0, free0, m, own - {lost}, spaces, d, oldsz);
          LeftFalls(total, tabs, lo, a, hi - 1);
          LeftEnd(total, tabs, lo, a);
          LeftEnd(total, tabs, lo, hi);
          return 0, lost;
        }
        assert lost == 0;
        NoZero(m, spaces, own, free);
        if k == -2 {
          GrownLost(m0, own0, m1, own1, m, own, spaces, free1, d, lo, a, f);
          lost := f;
        } else {
          GrownNext(m0, own0, m1, own1, m, own, spaces, free1, d, lo, a);
          top := top + 1;
        }
        a := a + 1;
      }
      LeftEnd(total, tabs, lo, hi);
      GrownSizes(m0, own0, free0, m, own - {lost}, spaces, d, oldsz, newsz, top);
      return newsz, lost;
    }

    /** setupkvm: a new directory with exactly the kernel's mappings and no user page. When a
        page table cannot be had, 0 is returned and the directory is left behind. */
    method Setupkvm(kmap: seq<Range>) returns (d: nat, ghost dir: nat)
      requires Valid() && KmapOk(kmap)
      modifies this
      ensures Valid() && (d == dir || d == 0)
      ensures old(free) == [] ==> dir == 0 && m == old(m) && own == old(own) && spaces == old(spaces)
      ensures old(free) == [] ==> free == old(free)
      ensures dir != 0 ==> dir !in old(spaces) && spaces == old(spaces) + {dir}
      ensures dir != 0 ==> NewSpace(old(m), old(own), old(spaces), m, own, dir)
      ensures dir == 0 <==> old(free) == []
      ensures d != 0 ==> KernelMap(m, d, kmap, |kmap|)
      ensures d == 0 ==> free == []
      ensures d != 0 <==> |old(free)| >= 1 + |KernelTabs(kmap, |kmap|)|
      ensures d != 0 ==> |free| == |old(free)| - 1 - |KernelTabs(kmap, |kmap|)|
      ensures d != 0 ==> Tabs(m, d) == KernelTabs(kmap, |kmap|)
    {
      hide Inv, NewSpace, KernelMap, KmapOk, Ready, Ranged, Present, PteAt, TableAt, Zeros, Tabs, TabsOf, TabNo,
        KernelTabs;
      ghost var m0, own0, spaces0 := m, own, spaces;
      ghost var total := |free|;
      d := Kalloc();
      if d == 0 {
        return 0, 0;
      }
      dir := d;
      SpaceInv(m, spaces, own, free, d);
      SpaceNew(m0, own0, m, spaces, own, free, d, kmap);
      NoTabs(m, d);
      KernelTabsFirst(kmap);
      m := m.(frames := m.frames[d := Table(Zeros())]);
      own := own[d := Dir(d)];
      spaces := spaces + {d};
      var i := 0;
      while i < |kmap|
        invariant 0 <= i <= |kmap| && Valid() && d in spaces && spaces == spaces0 + {d}
        invariant NewSpace(m0, own0, spaces0, m, own, d) && KernelMap(m, d, kmap, i)
        invariant |free| + |Tabs(m, d)| == total - 1 && Tabs(m, d) == KernelTabs(kmap, i)
      {
        ghost var m1, own1, free1 := m, own, free;
        ReadyKernel(m, own, kmap, i);
        KernelVacant(m, d, kmap, i);
        var r, ok;
        ghost var k;
        r, ok, k := Mappages(d, kmap[i].virt, kmap[i].size, kmap[i].f0, kmap[i].perm);
        assert PageDown(kmap[i].virt) + k <= PageDown(kmap[i].virt + kmap[i].size - 1) ==>
          InRange(kmap[i], PageDown(kmap[i].virt) + k);
        KernelNext(m0, own0, spaces0, m1, own1, free1, m, own, free, spaces, d, kmap, i, k);
        KernelTabsNext(kmap, i, k);
        if r < 0 {
          MoreThan(Tabs(m, d), KernelTabs(kmap, |kmap|), TabNo(PageDown(kmap[i].virt) + k));
          return 0, dir;
        }
        i := i + 1;
      }
    }

    /** copyuvm: the child has the parent's bytes and flags on [0, sz), in frames nobody had,
        and the kernel's mappings; the parent is untouched. On failure everything is given
        back, except when it was a page table that could not be had (`leak`). A panic exactly
        when a page of the parent is missing and the frames suffice for those before it. */
    method Copyuvm(d: nat, sz: nat, kmap: seq<Range>) returns (c: nat, ok: bool, ghost leak: bool)
      requires Valid() && KmapOk(kmap) && d in spaces && sz <= KERNBASE
      modifies this
      ensures Valid()
      ensures !ok <==>
        && Unbroken(old(m), d, PageUp(sz)) < PageUp(sz)
        && CopyFits(|old(free)|, KernelTabs(kmap, |kmap|), Unbroken(old(m), d, PageUp(sz)))
      ensures ok && c != 0 ==> c !in old(spaces) && spaces == old(spaces) + {c}
      ensures ok && c != 0 ==> Copied(old(m), old(own), old(spaces), m, own, d, c, PageUp(sz))
      ensures ok && c != 0 ==> SamePages(old(m), d, m, old(own), c, sz) && Sized(m, c, sz)
      ensures ok && c != 0 ==> KernelMap(m, c, kmap, |kmap|) && !leak
      ensures ok && c == 0 && !leak ==> spaces == old(spaces) && own == old(own) && SameMap(old(m), m, spaces)
      ensures ok && c == 0 && !leak ==> DataKept(old(m), m, old(own))
      ensures ok && c == 0 && leak ==> SameMap(old(m), m, old(spaces)) && DataKept(old(m), m, old(own))
      ensures ok ==> (c != 0 <==> CopyFits(|old(free)|, KernelTabs(kmap, |kmap|), Unbroken(old(m), d, PageUp(sz))))
      ensures ok ==> (leak <==> CopyLeaks(|old(free)|, KernelTabs(kmap, |kmap|), Unbroken(old(m), d, PageUp(sz))))
    {
      hide Inv, NewSpace, KernelMap, KmapOk, Present, PteAt, TableAt, Copied, PageAdded, PageLost, SameMap, DataKept,
        Released, Sized, SamePages;
      hide Tabs, TabsOf, TabNo, KernelTabs, Left, RunsOutAtTable, Unbroken;
      ghost var total, tabs := |free|, KernelTabs(kmap, |kmap|);
      ghost var m0, own0, spaces0, free0 := m, own, spaces, free;
      ghost var u := Unbroken(m, d, PageUp(sz));
      leak := false;
      ghost var dir;
      c, dir := Setupkvm(kmap);
      if c == 0 {
        if dir == 0 {
          WalkNone(m, spaces, own, free, d);
        } else {
          NewSpaceKeeps(m0, own0, spaces0, m, own, dir);
        }
        return 0, true, dir != 0;
      }
      CopiedNone(m0, own0, spaces0, m, own, d, c);
      ghost var rest := |free|;
      LeftNone(rest, tabs, 0);
      LeftEnd(rest, tabs, 0, u);
      var i := 0;
      while i * PGSIZE < sz
        invariant 0 <= i <= u && Valid() && spaces == spaces0 + {c} && c !in spaces0
        invariant Copied(m0, own0, spaces0, m, own, d, c, i) && KernelMap(m, c, kmap, |kmap|)
        invariant |free| == Left(rest, tabs, 0, i) && Tabs(m, c) == tabs + TabsOf(0, i - 0)
        decreases sz - i * PGSIZE
      {
        CopiedSame(m0, own0, spaces0, m, own, d, c, i);
        PresentTable(m, d, i);
        var t;
        t, ok := Walk(d, i, false);
        if !ok {
          return c, false, false;
        }
        TableEntry(m, d, i);
        var e := TableAt(m, t)[i % NPT];
        if !Present(e) {
          return c, false, false;
        }
        CopiedAt(m0, own0, spaces0, free0, m, own, d, c, i);
        FlagsOdd(e);
        ghost var m1, own1, free1 := m, own, free;
        LeftNext(rest, tabs, 0, i, u);
        LeftLoses(rest, tabs, 0, i, u);
        OneMore(tabs + TabsOf(0, i - 0), TabNo(i));
        var r;
        ghost var lost;
        r, lost := NewPage(c, i, m.frames[FrameOf(e)].b, Flags(e));
        if r != 0 {
          ghost var m2, own2 := m, own;
          ok := Freevm(c);
          CopyUndone(m0, own0, spaces0, free0, m1, own1, m2, own2, m, own, d, c, i, r, lost);
          return 0, true, r == -2;
        }
        CopiedNext(m0, own0, spaces0, free0, m1, own1, free1, m, own, d, c, i, kmap);
        i := i + 1;
      }
      CopiedSizes(m0, own0, spaces0, m, own, d, c, sz);
      return c, true, false;
    }
  }

  // ------------------------------------------------------------ in addresses

  lemma SizedExactly(m: Mem, d: nat, sz: nat)
    requires sz <= KERNBASE
    ensures Sized(m, d, sz) <==> Exactly(m, d, PageUp(sz))
    ensures SizedBut(m, d, sz, 0, 0) <==> Exactly(m, d, PageUp(sz))
  {
    hide Present, PteAt;
    if Sized(m, d, sz) {
      forall p | 0 <= p < UPAGES
        ensures Present(PteAt(m, d, p)) <==> p < PageUp(sz)
      {
        if 4096 * p < sz { assert Present(PteAt(m, d, 4096 * p / 4096)); }
      }
    }
    if Exactly(m, d, PageUp(sz)) {
      forall va | 0 <= va < sz && va < KERNBASE
        ensures Present(PteAt(m, d, va / 4096))
      {
        assert Present(PteAt(m, d, va / 4096)) <==> va / 4096 < PageUp(sz);
      }
    }
  }

  lemma RangedBytes(m: Mem, own: map<nat, Slot>, free: seq<nat>, n: Mem, own2: map<nat, Slot>, free2: seq<nat>,
          spaces: set<nat>, d: nat, va: nat, size: nat, f0: nat, perm: nat)
    requires d in spaces && size > 0 && va + size <= TOP
    requires var k := PageDown(va + size - 1) + 1 - PageDown(va);
      Ranged(m, own, free, n, own2, free2, spaces, d, PageDown(va), k, f0, perm)
    ensures forall x :: va <= x < va + size ==> PteAt(n, d, x / 4096) == Pte(f0 + (x / 4096 - va / 4096), perm)
  {
    hide PteAt, Pte, OwnMoved, DataKept, Suffix;
    assert PageDown(va) == va / 4096;
  }

  lemma DroppedKeeps(m: Mem, own: map<nat, Slot>, free: seq<nat>, n: Mem, own2: map<nat, Slot>, spaces: set<nat>,
          d: nat, newsz: nat, oldsz: nat)
    requires Inv(m, spaces, own, free) && d in spaces && newsz < oldsz <= KERNBASE
    requires Dropped(m, own, n, own2, spaces, d, PageUp(newsz), PageUp(oldsz))
    ensures KeptBelow(m, n, d, newsz)
  {
    hide Inv, PteAt, TableAt, Present, Visits;
    forall va | 0 <= va < newsz && va < KERNBASE
      ensures PteAt(n, d, va / 4096) == PteAt(m, d, va / 4096)
      ensures Present(PteAt(m, d, va / 4096)) ==> BytesAt(n, d, va / 4096) == BytesAt(m, d, va / 4096)
    {
      assert va / 4096 < PageUp(newsz);
      if Present(PteAt(m, d, va / 4096)) {
        UserOwned(m, spaces, own, free, d, va / 4096);
      }
    }
  }

  lemma DroppedSizes(m: Mem, own: map<nat, Slot>, n: Mem, own2: map<nat, Slot>, spaces: set<nat>, d: nat, newsz: nat,
          oldsz: nat)
    requires d in spaces && newsz < oldsz <= KERNBASE
    requires Dropped(m, own, n, own2, spaces, d, PageUp(newsz), PageUp(oldsz))
    ensures forall size :: 0 <= size <= KERNBASE && Sized(m, d, size) ==> SizedBut(n, d, size, newsz, oldsz)
  {
    hide PteAt, Present, Dropped, Sized, Exactly;
    forall size: nat | 0 <= size <= KERNBASE && Sized(m, d, size)
      ensures SizedBut(n, d, size, newsz, oldsz)
    {
      SizedExactly(m, d, size);
      FreesAll(m, own, n, own2, spaces, d, PageUp(newsz), PageUp(oldsz), PageUp(size));
    }
  }

  lemma RestoredSizes(m: Mem, own: map<nat, Slot>, free: seq<nat>, n: Mem, own2: map<nat, Slot>, spaces: set<nat>,
          d: nat, sz: nat)
    requires Inv(m, spaces, own, free) && d in spaces && sz <= KERNBASE
    requires Restored(m, own, n, own2, spaces, d, PageUp(sz))
    ensures Sized(n, d, sz) && KeptBelow(m, n, d, sz)
  {
    hide Inv, PteAt, Present, Exactly, Sized;
    SizedExactly(n, d, sz);
    forall va | 0 <= va < sz && va < KERNBASE
      ensures PteAt(n, d, va / 4096) == PteAt(m, d, va / 4096)
      ensures Present(PteAt(m, d, va / 4096)) ==> BytesAt(n, d, va / 4096) == BytesAt(m, d, va / 4096)
    {
      if Present(PteAt(m, d, va / 4096)) {
        UserOwned(m, spaces, own, free, d, va / 4096);
      }
    }
  }

  lemma GrownSizes(m: Mem, own: map<nat, Slot>, free: seq<nat>, n: Mem, own2: map<nat, Slot>, spaces: set<nat>,
          d: nat, oldsz: nat, newsz: nat, top: nat)
    requires Inv(m, spaces, own, free) && d in spaces && oldsz <= newsz < KERNBASE && Exactly(m, d, PageUp(oldsz))
    requires Grown(m, own, n, own2, spaces, d, PageUp(oldsz), top) && PageUp(oldsz) <= top <= UPAGES
    ensures KeptBelow(m, n, d, oldsz)
    ensures top == PageUp(newsz) ==> Sized(n, d, newsz) && FreshAbove(n, own, d, oldsz, newsz)
    ensures top == PageUp(newsz) - 1 ==>
      newsz > 0 && Sized(n, d, 4096 * ((newsz - 1) / 4096)) && !Present(PteAt(n, d, (newsz - 1) / 4096))
  {
    hide Inv, PteAt, Present, Sized, Holding, Added;
    GrownExactly(m, own, n, own2, spaces, d, PageUp(oldsz), top);
    SizedExactly(n, d, newsz);
    forall va | 0 <= va < oldsz && va < KERNBASE
      ensures PteAt(n, d, va / 4096) == PteAt(m, d, va / 4096)
      ensures Present(PteAt(m, d, va / 4096)) ==> BytesAt(n, d, va / 4096) == BytesAt(m, d, va / 4096)
    {
      if Present(PteAt(m, d, va / 4096)) {
        UserOwned(m, spaces, own, free, d, va / 4096);
      }
    }
    if top == PageUp(newsz) - 1 {
      SizedExactly(n, d, 4096 * ((newsz - 1) / 4096));
    }
  }

  lemma CopiedSizes(m: Mem, own: map<nat, Slot>, spaces: set<nat>, n: Mem, own2: map<nat, Slot>, d: nat, c: nat,
          sz: nat)
    requires sz <= KERNBASE && Copied(m, own, spaces, n, own2, d, c, PageUp(sz))
    ensures SamePages(m, d, n, own, c, sz) && Sized(n, c, sz)
  {
    hide PteAt, Present, Holding, BytesAt, Exactly, Sized;
    SizedExactly(n, c, sz);
  }

  /** How many of the first n pages come before one that is not mapped. */
  ghost function Unbroken(m: Mem, d: nat, n: nat): (u: nat)
    requires n <= UPAGES
    ensures u <= n && (forall p :: 0 <= p < u ==> Present(PteAt(m, d, p))) && (u < n ==> !Present(PteAt(m, d, u)))
  {
    if n == 0 then 0
    else
      var u := Unbroken(m, d, n - 1);
      if u == n - 1 && Present(PteAt(m, d, n - 1)) then n else u
  }

  /** From m to n, directory c was made with copies of the first k pages of d: the same
      bytes and flags, in frames nobody had. Nothing else changed. */
  ghost predicate Copied(m: Mem, own: map<nat, Slot>, spaces: set<nat>, n: Mem, own2: map<nat, Slot>, d: nat, c: nat,
          k: nat) {
    && SameMap(m, n, spaces) && Added(own, own2, c) && DataKept(m, n, own) && Exactly(n, c, k)
    && forall p :: 0 <= p < k && p < PAGES ==> Holding(n, own, c, p, BytesAt(m, d, p), Flags(PteAt(m, d, p)))
  }

  lemma CopiedNone(m: Mem, own: map<nat, Slot>, spaces: set<nat>, n: Mem, own2: map<nat, Slot>, d: nat, c: nat)
    requires NewSpace(m, own, spaces, n, own2, c)
    ensures Copied(m, own, spaces, n, own2, d, c, 0)
  {
  }

  lemma CopiedSame(m: Mem, own: map<nat, Slot>, spaces: set<nat>, n: Mem, own2: map<nat, Slot>, d: nat, c: nat, i: nat)
    requires d in spaces && i < PAGES && Copied(m, own, spaces, n, own2, d, c, i)
    ensures PteAt(n, d, i) == PteAt(m, d, i)
  {
    hide PteAt, Holding, Exactly;
  }

  /** The next page of the parent, and its empty place in the child. */
  lemma CopiedAt(m: Mem, own: map<nat, Slot>, spaces: set<nat>, free: seq<nat>, n: Mem, own2: map<nat, Slot>, d: nat,
          c: nat, i: nat)
    requires Inv(m, spaces, own, free) && d in spaces && i < UPAGES && Present(PteAt(m, d, i))
    requires Copied(m, own, spaces, n, own2, d, c, i)
    ensures PteAt(n, d, i) == PteAt(m, d, i) && !Present(PteAt(n, c, i))
    ensures FrameOf(PteAt(n, d, i)) in n.frames && n.frames[FrameOf(PteAt(n, d, i))] == Data(BytesAt(m, d, i))
  {
    UserOwned(m, spaces, own, free, d, i);
  }

  lemma FlagsOdd(w: nat)
    ensures Flags(w) < 4096 && (Present(w) ==> Flags(w) % 2 == 1)
  {
    assert w == 2 * (2048 * (w / 4096)) + w % 4096;
  }

  lemma CopiedNext(m0: Mem, own0: map<nat, Slot>, spaces: set<nat>, free0: seq<nat>, m: Mem, own: map<nat, Slot>,
          free: seq<nat>,
                   n: Mem, own2: map<nat, Slot>, d: nat, c: nat, i: nat, kmap: seq<Range>)
    requires Copied(m0, own0, spaces, m, own, d, c, i) && Inv(m, spaces + {c}, own, free) && c !in spaces && i < UPAGES
    requires Present(PteAt(m0, d, i)) && Flags(PteAt(m0, d, i)) % 2 == 1
    requires PageAdded(m, own, n, own2, spaces + {c}, c, i, BytesAt(m0, d, i), Flags(PteAt(m0, d, i)))
    requires KmapOk(kmap) && KernelMap(m, c, kmap, |kmap|)
    ensures Copied(m0, own0, spaces, n, own2, d, c, i + 1) && KernelMap(n, c, kmap, |kmap|)
  {
    hide Inv, PteAt, Present, Flags, FrameOf, KmapOk, KernelPte, BytesAt;
    forall p | 0 <= p < i + 1 && p < PAGES
      ensures Holding(n, own0, c, p, BytesAt(m0, d, p), Flags(PteAt(m0, d, p)))
    {
      if p < i {
        HoldingKept(m, own, n, own2, spaces + {c}, free, own0, c, p, BytesAt(m0, d, p), Flags(PteAt(m0, d, p)));
      }
    }
  }

  lemma NotOfNew(m: Mem, own: map<nat, Slot>, spaces: set<nat>, free: seq<nat>, c: nat, f: nat)
    requires Inv(m, spaces, own, free) && c !in spaces && f in own
    ensures !OfSpace(own[f], c)
  {
    assert StandsAt(m, spaces, own[f], f);
  }

  /** freevm after a failure takes back the whole copy. */
  lemma CopyUndone(m0: Mem, own0: map<nat, Slot>, spaces: set<nat>, free0: seq<nat>, m1: Mem, own1: map<nat, Slot>,
          m2: Mem, own2: map<nat, Slot>,
                   n: Mem, own: map<nat, Slot>, d: nat, c: nat, i: nat, r: int, lost: nat)
    requires Inv(m0, spaces, own0, free0) && c !in spaces && Copied(m0, own0, spaces, m1, own1, d, c, i)
    requires r == -1 ==> m2 == m1 && own2 == own1
    requires r != -1 ==> PageLost(m1, own1, m2, own2, spaces + {c}, c, lost)
    requires Released(m2, own2, n, own, spaces, c)
    ensures SameMap(m0, n, spaces) && DataKept(m0, n, own0) && (r == -1 ==> own == own0)
  {
    hide Inv, PteAt, Present, Flags, FrameOf, BytesAt, OfSpace, Exactly, Holding;
    forall f | f in own0
      ensures !OfSpace(own0[f], c)
    {
      NotOfNew(m0, own0, spaces, free0, c, f);
    }
    assert SameMap(m0, n, spaces);
    if r == -1 {
      assert forall f :: f in own <==> f in own0;
    }
    assert forall f :: f in own0 ==> f in own2 && own2[f] == own0[f];
  }

  /** A row of vm.c's kmap: virt, the size and first frame of its physical range, perm. */
  datatype Range = Range(virt: nat, size: nat, f0: nat, perm: nat)

  predicate InRange(k: Range, p: nat)
    requires k.size > 0
  {
    PageDown(k.virt) <= p <= PageDown(k.virt + k.size - 1)
  }

  /** The rows lie above KERNBASE and no two share a page. */
  ghost predicate KmapOk(kmap: seq<Range>) {
    && (forall i :: 0 <= i < |kmap| ==>
          kmap[i].size > 0 && kmap[i].virt >= KERNBASE && kmap[i].virt + kmap[i].size <= TOP && kmap[i].perm < 4096)
    && (forall i, j, p :: 0 <= i < j < |kmap| ==> !(InRange(kmap[i], p) && InRange(kmap[j], p)))
  }

  /** The entry of page p after the first k rows. */
  function KernelPte(kmap: seq<Range>, k: nat, p: nat): nat
    requires k <= |kmap| && forall i :: 0 <= i < |kmap| ==> kmap[i].size > 0
  {
    if k == 0 then 0
    else if InRange(kmap[k - 1], p) then Pte(kmap[k - 1].f0 + (p - PageDown(kmap[k - 1].virt)), kmap[k - 1].perm)
    else KernelPte(kmap, k - 1, p)
  }

  ghost predicate KernelMap(m: Mem, d: nat, kmap: seq<Range>, k: nat)
    requires k <= |kmap| && KmapOk(kmap)
  {
    forall p :: UPAGES <= p < PAGES ==> PteAt(m, d, p) == KernelPte(kmap, k, p)
  }

  /** The number of pages of a row. */
  function Span(k: Range): nat
    requires k.size > 0
  {
    PageDown(k.virt + k.size - 1) + 1 - PageDown(k.virt)
  }

  /** The page tables the first i rows need. */
  ghost function KernelTabs(kmap: seq<Range>, i: nat): set<nat>
    requires i <= |kmap| && KmapOk(kmap)
  {
    if i == 0 then {} else KernelTabs(kmap, i - 1) + TabsOf(PageDown(kmap[i - 1].virt), Span(kmap[i - 1]))
  }

  lemma KernelTabsFirst(kmap: seq<Range>)
    requires KmapOk(kmap)
    ensures KernelTabs(kmap, 0) == {}
  {
  }

  lemma {:induction false} KernelTabsGrow(kmap: seq<Range>, i: nat, j: nat)
    requires KmapOk(kmap) && i <= j <= |kmap|
    ensures KernelTabs(kmap, i) <= KernelTabs(kmap, j)
    decreases j - i
  {
    if i < j {
      KernelTabsGrow(kmap, i, j - 1);
    }
  }

  /** Row i, whole or up to page k of it. */
  lemma KernelTabsNext(kmap: seq<Range>, i: nat, k: nat)
    requires KmapOk(kmap) && i < |kmap| && k <= Span(kmap[i])
    ensures KernelTabs(kmap, i) + TabsOf(PageDown(kmap[i].virt), k) <= KernelTabs(kmap, |kmap|)
    ensures k == Span(kmap[i]) ==> KernelTabs(kmap, i) + TabsOf(PageDown(kmap[i].virt), k) == KernelTabs(kmap, i + 1)
    ensures k < Span(kmap[i]) ==> TabNo(PageDown(kmap[i].virt) + k) in KernelTabs(kmap, |kmap|)
  {
    KernelTabsGrow(kmap, i + 1, |kmap|);
    var a, n := PageDown(kmap[i].virt), Span(kmap[i]);
    TabsOfPart(a, k, n);
  }

  lemma TabsOfPart(a: nat, k: nat, n: nat)
    requires k <= n
    ensures TabsOf(a, k) <= TabsOf(a, n) && (k < n ==> TabNo(a + k) in TabsOf(a, n))
  {
  }

  lemma NoTabs(m: Mem, d: nat)
    ensures Tabs(m.(frames := m.frames[d := Table(Zeros())]), d) == {}
  {
    var n := m.(frames := m.frames[d := Table(Zeros())]);
    assert TableAt(n, d) == Zeros();
    assert forall i :: 0 <= i < NPT ==> Pde(n, d, i) == 0;
  }

  /** From m to n, directory d was made, without user pages; nothing else changed. */
  ghost predicate NewSpace(m: Mem, own: map<nat, Slot>, spaces: set<nat>, n: Mem, own2: map<nat, Slot>, d: nat) {
    && SameMap(m, n, spaces) && Added(own, own2, d) && DataKept(m, n, own) && Exactly(n, d, 0) && d !in own && d in own2
    && own2[d] == Dir(d)
  }

  lemma NewSpaceKeeps(m: Mem, own: map<nat, Slot>, spaces: set<nat>, n: Mem, own2: map<nat, Slot>, d: nat)
    requires NewSpace(m, own, spaces, n, own2, d)
    ensures SameMap(m, n, spaces) && DataKept(m, n, own)
  {
  }

  /** The new directory, after kalloc made m0 into m. */
  lemma SpaceNew(m0: Mem, own0: map<nat, Slot>, m: Mem, spaces: set<nat>, own: map<nat, Slot>, free: seq<nat>, f: nat,
          kmap: seq<Range>)
    requires Inv(m, spaces, own, free) && m.frames == m0.frames && f !in own0 && own == own0[f := Other] && KmapOk(kmap)
    ensures var n := m.(frames := m.frames[f := Table(Zeros())]);
      NewSpace(m0, own0, spaces, n, own[f := Dir(f)], f) && KernelMap(n, f, kmap, 0)
  {
    hide Inv, PteAt, Zeros;
    var n := m.(frames := m.frames[f := Table(Zeros())]);
    BlankSpace(n, f);
    SpaceInv(m, spaces, own, free, f);
    forall d2, p2 | d2 in spaces && 0 <= p2 < PAGES
      ensures PteAt(n, d2, p2) == PteAt(m0, d2, p2)
    {
      SameFrames(m0, m, d2, p2);
    }
    assert Exactly(n, f, 0);
  }

  lemma BlankSpace(n: Mem, f: nat)
    requires f in n.frames && n.frames[f] == Table(Zeros())
    ensures forall p :: 0 <= p < PAGES ==> PteAt(n, f, p) == 0
  {
    assert TableAt(n, f) == Zeros();
  }

  lemma ReadyKernel(m: Mem, own: map<nat, Slot>, kmap: seq<Range>, i: nat)
    requires KmapOk(kmap) && i < |kmap|
    ensures kmap[i].size > 0 && kmap[i].virt + kmap[i].size <= TOP && kmap[i].perm < 4096 && kmap[i].virt >= KERNBASE
    ensures Ready(m, own, PageDown(kmap[i].virt),
      PageDown(kmap[i].virt + kmap[i].size - 1) + 1 - PageDown(kmap[i].virt), kmap[i].f0)
  {
  }

  lemma {:induction false} KernelZero(kmap: seq<Range>, k: nat, i: nat, p: nat)
    requires KmapOk(kmap) && k <= i < |kmap| && InRange(kmap[i], p)
    ensures KernelPte(kmap, k, p) == 0
  {
    if k > 0 {
      assert !InRange(kmap[k - 1], p);
      KernelZero(kmap, k - 1, i, p);
    }
  }

  /** The pages of row i are not yet mapped. */
  lemma KernelVacant(m: Mem, d: nat, kmap: seq<Range>, i: nat)
    requires KmapOk(kmap) && i < |kmap| && KernelMap(m, d, kmap, i)
    ensures kmap[i].size > 0 && forall p: nat :: InRange(kmap[i], p) ==> UPAGES <= p < PAGES && !Present(PteAt(m, d, p))
  {
    forall p: nat | InRange(kmap[i], p)
      ensures UPAGES <= p < PAGES && !Present(PteAt(m, d, p))
    {
      KernelZero(kmap, i, i, p);
    }
  }

  /** Row i mapped, whole or in part. */
  lemma KernelNext(m0: Mem, own0: map<nat, Slot>, spaces0: set<nat>, m: Mem, own: map<nat, Slot>, free: seq<nat>,
                   n: Mem, own2: map<nat, Slot>, free2: seq<nat>, spaces: set<nat>, d: nat, kmap: seq<Range>, i: nat,
                   k: nat)
    requires KmapOk(kmap) && i < |kmap| && spaces == spaces0 + {d} && d !in spaces0 && KernelMap(m, d, kmap, i)
    requires NewSpace(m0, own0, spaces0, m, own, d)
    requires Ranged(m, own, free, n, own2, free2, spaces, d, PageDown(kmap[i].virt), k, kmap[i].f0, kmap[i].perm)
    ensures NewSpace(m0, own0, spaces0, n, own2, d)
    ensures k == PageDown(kmap[i].virt + kmap[i].size - 1) + 1 - PageDown(kmap[i].virt) ==> KernelMap(n, d, kmap, i + 1)
  {
    hide PteAt, Pte;
    var a, f0, perm := PageDown(kmap[i].virt), kmap[i].f0, kmap[i].perm;
    assert a >= UPAGES;
    forall p | 0 <= p < PAGES
      ensures PteAt(n, d, p) == if a <= p < a + k then Pte(f0 + (p - a), perm) else PteAt(m, d, p)
    {
    }
    assert Exactly(n, d, 0);
    assert SameMap(m0, n, spaces0);
  }

  /** The frames left of `total` once pages [lo, a) and the page tables they need besides
      `tabs` have one each; negative when there are too few. */
  ghost function Left(total: nat, tabs: set<nat>, lo: nat, a: nat): int
    requires lo <= a
  {
    total + |tabs| - (a - lo) - |tabs + TabsOf(lo, a - lo)|
  }

  /** The frames run out at a page table, not at a page. */
  ghost predicate RunsOutAtTable(total: nat, tabs: set<nat>, lo: nat, hi: nat)
    requires lo <= hi
  {
    Left(total, tabs, lo, hi) < 0 && forall a :: lo <= a <= hi ==> Left(total, tabs, lo, a) != 0
  }

  lemma LeftNone(total: nat, tabs: set<nat>, lo: nat)
    ensures Left(total, tabs, lo, lo) == total && tabs + TabsOf(lo, 0) == tabs
  {
    TabsOfNext(lo, 0);
  }

  lemma LeftStep(total: nat, tabs: set<nat>, lo: nat, a: nat)
    requires lo <= a
    ensures tabs + TabsOf(lo, a + 1 - lo) == tabs + TabsOf(lo, a - lo) + {TabNo(a)}
    ensures Left(total, tabs, lo, a + 1) ==
      Left(total, tabs, lo, a) - if TabNo(a) in tabs + TabsOf(lo, a - lo) then 1 else 2
  {
    TabsOfNext(lo, a - lo);
    var s := tabs + TabsOf(lo, a - lo);
    assert tabs + (TabsOf(lo, a - lo) + {TabNo(a)}) == s + {TabNo(a)};
    assert TabNo(a) in s ==> s + {TabNo(a)} == s;
  }

  lemma {:induction false} LeftFalls(total: nat, tabs: set<nat>, lo: nat, a: nat, b: nat)
    requires lo <= a <= b
    ensures Left(total, tabs, lo, b) <= Left(total, tabs, lo, a) - (b - a)
    decreases b - a
  {
    hide Left, TabsOf, TabNo;
    if a < b {
      LeftFalls(total, tabs, lo, a, b - 1);
      LeftStep(total, tabs, lo, b - 1);
    }
  }

  /** What page a, still to come before hi, does to the count. */
  lemma LeftNext(total: nat, tabs: set<nat>, lo: nat, a: nat, hi: nat)
    requires lo <= a < hi
    ensures tabs + TabsOf(lo, a + 1 - lo) == tabs + TabsOf(lo, a - lo) + {TabNo(a)}
    ensures Left(total, tabs, lo, a + 1) ==
      Left(total, tabs, lo, a) - if TabNo(a) in tabs + TabsOf(lo, a - lo) then 1 else 2
    ensures Left(total, tabs, lo, a) == 0 ==> Left(total, tabs, lo, hi) < 0 && !RunsOutAtTable(total, tabs, lo, hi)
    ensures Left(total, tabs, lo, a) == 1 && TabNo(a) !in tabs + TabsOf(lo, a - lo) ==>
      RunsOutAtTable(total, tabs, lo, a + 1)
    ensures RunsOutAtTable(total, tabs, lo, a) ==> RunsOutAtTable(total, tabs, lo, a + 1)
    ensures RunsOutAtTable(total, tabs, lo, a) ==> RunsOutAtTable(total, tabs, lo, hi)
  {
    hide Left, TabsOf, TabNo;
    LeftStep(total, tabs, lo, a);
    LeftFalls(total, tabs, lo, a, hi);
    forall b | lo <= b <= a
      ensures Left(total, tabs, lo, b) >= Left(total, tabs, lo, a)
    {
      LeftFalls(total, tabs, lo, b, a);
    }
    forall b | a <= b <= hi
      ensures Left(total, tabs, lo, b) <= Left(total, tabs, lo, a)
    {
      LeftFalls(total, tabs, lo, a, b);
    }
  }

  /** Running out at the table of page a is running out at a table. */
  lemma LeftLoses(total: nat, tabs: set<nat>, lo: nat, a: nat, hi: nat)
    requires lo <= a < hi
    ensures Left(total, tabs, lo, a) == 1 && TabNo(a) !in tabs + TabsOf(lo, a - lo) ==>
      RunsOutAtTable(total, tabs, lo, hi) && Left(total, tabs, lo, hi) < 0
  {
    LeftNext(total, tabs, lo, a, hi);
    if a + 1 < hi {
      LeftNext(total, tabs, lo, a + 1, hi);
    }
  }

  lemma OneFrame()
    ensures RunsOutAtTable(1, {}, 0, 1) && Left(1, {}, 0, 0) == 1
  {
    LeftNone(1, {}, 0);
    LeftNext(1, {}, 0, 0, 1);
  }

  /** Two frames, of which the directory takes one: allocuvm loses the other and reports a
      page that is not there. */
  method LosesAFrame() returns (vm: Vm, d: nat, r: nat, ghost lost: nat)
    ensures fresh(vm) && vm.Valid() && d in vm.spaces && r == 4096 && !Present(PteAt(vm.m, d, 0))
    ensures lost in vm.own && vm.own[lost] == Lost && vm.free == []
  {
    hide Inv, Grown, Present, PteAt, Tabs, TabsOf, Left, RunsOutAtTable, Exactly, NewSpace;
    vm := new Vm(1, 3);
    KernelTabsFirst([]);
    ghost var dir;
    ghost var m0, own0 := vm.m, vm.own;
    d, dir := vm.Setupkvm([]);
    NewSpaceBare(m0, own0, {}, vm.m, vm.own, d);
    OneFrame();
    ghost var m1, own1 := vm.m, vm.own;
    r, lost := vm.Allocuvm(d, 0, 4096);
    GrownNot(m1, own1, vm.m, vm.own - {lost}, vm.spaces, d);
  }

  lemma NewSpaceBare(m: Mem, own: map<nat, Slot>, spaces: set<nat>, n: Mem, own2: map<nat, Slot>, d: nat)
    requires NewSpace(m, own, spaces, n, own2, d)
    ensures Exactly(n, d, 0)
  {
  }

  lemma GrownNot(m: Mem, own: map<nat, Slot>, n: Mem, own2: map<nat, Slot>, spaces: set<nat>, d: nat)
    requires Grown(m, own, n, own2, spaces, d, 0, 0) && Exactly(m, d, 0) && d in spaces
    ensures !Present(PteAt(n, d, 0))
  {
  }

  /** A page table for page 1024 and none for page 1: deallocuvm from page 1 up reports
      success and leaves page 1024 mapped. */
  method StrideMisses() returns (vm: Vm, d: nat, r: nat, ok: bool)
    ensures fresh(vm) && vm.Valid() && d in vm.spaces && ok && r == 4096 && Present(PteAt(vm.m, d, 1024))
  {
    hide Inv, Dropped, Present, PteAt, Pde, Tabs, Exactly, NewSpace, PageAdded, PageLost;
    vm := new Vm(1, 4);
    KernelTabsFirst([]);
    ghost var dir;
    ghost var m0, own0 := vm.m, vm.own;
    d, dir := vm.Setupkvm([]);
    NewSpaceBare(m0, own0, {}, vm.m, vm.own, d);
    assert !Present(PteAt(vm.m, d, 1024)) by { ExactlyAt(vm.m, d, 0, 1024); }
    ghost var m1, own1 := vm.m, vm.own;
    var k;
    ghost var lost;
    k, lost := vm.NewPage(d, 1024, ZeroPage(), 6);
    ghost var m2, own2 := vm.m, vm.own;
    AddedThere(m1, own1, m2, own2, vm.spaces, d, 1024, ZeroPage(), 6);
    PassedBy(m2, d);
    r, ok := vm.Deallocuvm(d, 1025 * 4096, 4096);
    DroppedNot(m2, own2, vm.m, vm.own, vm.spaces, d, 1, 1025, 1024);
  }

  lemma ExactlyAt(m: Mem, d: nat, n: nat, p: nat)
    requires Exactly(m, d, n) && p < UPAGES
    ensures Present(PteAt(m, d, p)) <==> p < n
  {
  }

  lemma AddedThere(m: Mem, own: map<nat, Slot>, n: Mem, own2: map<nat, Slot>, spaces: set<nat>, d: nat, p: nat,
          b: seq<nat>, perm: nat)
    requires p < PAGES && PageAdded(m, own, n, own2, spaces, d, p, b, perm)
    ensures Present(PteAt(n, d, p))
  {
  }

  lemma PassedBy(m: Mem, d: nat)
    requires Tabs(m, d) == {1}
    ensures !Visits(m, d, 1, 1024)
  {
    assert 1 in Tabs(m, d) && 0 !in Tabs(m, d);
    assert Bare(m, d, 0, 1);
    PassesOver(m, d, 1, 1024);
  }

  lemma DroppedNot(m: Mem, own: map<nat, Slot>, n: Mem, own2: map<nat, Slot>, spaces: set<nat>, d: nat, lo: nat,
          hi: nat, p: nat)
    requires lo < PAGES && p < PAGES && d in spaces && Dropped(m, own, n, own2, spaces, d, lo, hi)
    requires !Visits(m, d, lo, p)
    ensures PteAt(n, d, p) == PteAt(m, d, p)
  {
  }

  /** copyuvm needs a directory, the kernel's page tables, and then its pages with theirs. */
  ghost predicate CopyFits(total: nat, tabs: set<nat>, pages: nat) {
    total >= 1 + |tabs| && Left(total - 1 - |tabs|, tabs, 0, pages) >= 0
  }

  /** It leaks when it has a directory and the frames then run out at a page table. */
  ghost predicate CopyLeaks(total: nat, tabs: set<nat>, pages: nat) {
    if total < 1 + |tabs| then total > 0 else RunsOutAtTable(total - 1 - |tabs|, tabs, 0, pages)
  }

  lemma OneMore(s: set<nat>, x: nat)
    ensures |s + {x}| == |s| + if x in s then 0 else 1
  {
    assert x in s ==> s + {x} == s;
  }

  lemma OneTab(m: Mem, d: nat, p: nat)
    ensures TabsOf(p, 0) == {} && TabsOf(p, 1) == {TabNo(p)} && Tabs(m, d) + {} == Tabs(m, d)
  {
    TabsOfNext(p, 0);
  }

  lemma OnePage(p: nat)
    ensures PageDown(p * PGSIZE) == p && PageDown(p * PGSIZE + PGSIZE - 1) == p
  {
  }

  lemma LeftEnd(total: nat, tabs: set<nat>, lo: nat, hi: nat)
    requires lo <= hi
    ensures RunsOutAtTable(total, tabs, lo, hi) ==> Left(total, tabs, lo, hi) < 0
  {
  }

  function ZeroPage(): (b: seq<nat>)
    ensures |b| == 4096 && forall i :: 0 <= i < 4096 ==> b[i] == 0
  {
    seq(4096, _ => 0)
  }

  lemma NoZero(m: Mem, spaces: set<nat>, own: map<nat, Slot>, free: seq<nat>)
    requires Inv(m, spaces, own, free)
    ensures 0 !in own && own - {0} == own
  {
  }

  /** From m to n, pages [lo, a) of d were added: zeroed, writable by the user, in frames
      nobody had. Nothing else changed. */
  ghost predicate Grown(m: Mem, own: map<nat, Slot>, n: Mem, own2: map<nat, Slot>, spaces: set<nat>, d: nat, lo: nat,
          a: nat) {
    && (forall d2, p2 :: d2 in spaces && 0 <= p2 < PAGES && !(d2 == d && lo <= p2 < a) ==>
          PteAt(n, d2, p2) == PteAt(m, d2, p2))
    && (forall p :: lo <= p < a && p < PAGES ==> Holding(n, own, d, p, ZeroPage(), 7))
    && Added(own, own2, d) && DataKept(m, n, own)
  }

  /** Page p of d is mapped with these flags to a frame of these bytes, which is not in `own`. */
  predicate Holding(m: Mem, own: map<nat, Slot>, d: nat, p: nat, b: seq<nat>, flags: nat)
    requires p < PAGES
  {
    && Present(PteAt(m, d, p)) && Flags(PteAt(m, d, p)) == flags && FrameOf(PteAt(m, d, p)) !in own
    && FrameOf(PteAt(m, d, p)) in m.frames && m.frames[FrameOf(PteAt(m, d, p))] == Data(b)
  }

  /** From m to n, d still has pages [0, lo) as they were; it may have more page tables. */
  ghost predicate Restored(m: Mem, own: map<nat, Slot>, n: Mem, own2: map<nat, Slot>, spaces: set<nat>, d: nat,
          lo: nat) {
    && Exactly(n, d, lo)
    && (forall d2, p2 :: d2 in spaces && 0 <= p2 < PAGES && !(d2 == d && lo <= p2 < UPAGES) ==>
          PteAt(n, d2, p2) == PteAt(m, d2, p2))
    && Grew(own, own2, d) && DataKept(m, n, own)
  }

  lemma GrownNone(m: Mem, own: map<nat, Slot>, spaces: set<nat>, d: nat, lo: nat)
    ensures Grown(m, own, m, own, spaces, d, lo, lo)
  {
  }

  lemma GrownVacant(m: Mem, own: map<nat, Slot>, n: Mem, own2: map<nat, Slot>, spaces: set<nat>, d: nat, lo: nat,
          top: nat, a: nat)
    requires Grown(m, own, n, own2, spaces, d, lo, top) && Exactly(m, d, lo) && d in spaces && lo <= top <= a < UPAGES
    ensures !Present(PteAt(n, d, a))
  {
  }

  /** A page that stays mapped keeps its bytes. */
  lemma HoldingKept(m: Mem, own: map<nat, Slot>, n: Mem, own2: map<nat, Slot>, spaces: set<nat>, free: seq<nat>,
          own0: map<nat, Slot>, d: nat, p: nat, b: seq<nat>, flags: nat)
    requires Inv(m, spaces, own, free) && d in spaces && p < UPAGES && Holding(m, own0, d, p, b, flags)
    requires PteAt(n, d, p) == PteAt(m, d, p) && DataKept(m, n, own)
    ensures Holding(n, own0, d, p, b, flags)
  {
    UserOwned(m, spaces, own, free, d, p);
  }

  lemma GrownNext(m0: Mem, own0: map<nat, Slot>, m: Mem, own: map<nat, Slot>, n: Mem, own2: map<nat, Slot>,
                  spaces: set<nat>, free: seq<nat>, d: nat, lo: nat, a: nat)
    requires Grown(m0, own0, m, own, spaces, d, lo, a) && Inv(m, spaces, own, free) && d in spaces && lo <= a < UPAGES
    requires PageAdded(m, own, n, own2, spaces, d, a, ZeroPage(), 6)
    ensures Grown(m0, own0, n, own2, spaces, d, lo, a + 1)
  {
    hide Inv, PteAt, Present, Flags, FrameOf;
    forall p | lo <= p < a + 1 && p < PAGES
      ensures Holding(n, own0, d, p, ZeroPage(), 7)
    {
      if p < a {
        HoldingKept(m, own, n, own2, spaces, free, own0, d, p, ZeroPage(), 7);
      }
    }
  }

  lemma GrownLost(m0: Mem, own0: map<nat, Slot>, m: Mem, own: map<nat, Slot>, n: Mem, own2: map<nat, Slot>,
                  spaces: set<nat>, free: seq<nat>, d: nat, lo: nat, a: nat, f: nat)
    requires Grown(m0, own0, m, own, spaces, d, lo, a) && Inv(m, spaces, own, free) && d in spaces && lo <= a < UPAGES
    requires PageLost(m, own, n, own2, spaces, d, f)
    ensures Grown(m0, own0, n, own2 - {f}, spaces, d, lo, a) && f !in own0
  {
    hide Inv, PteAt, Present, Flags, FrameOf;
    forall p | lo <= p < a && p < PAGES
      ensures Holding(n, own0, d, p, ZeroPage(), 7)
    {
      HoldingKept(m, own, n, own2, spaces, free, own0, d, p, ZeroPage(), 7);
    }
  }

  lemma GrownExactly(m0: Mem, own0: map<nat, Slot>, m: Mem, own: map<nat, Slot>, spaces: set<nat>, d: nat, lo: nat,
          a: nat)
    requires Grown(m0, own0, m, own, spaces, d, lo, a) && Exactly(m0, d, lo) && d in spaces && lo <= a <= UPAGES
    ensures Exactly(m, d, a)
  {
    forall p | 0 <= p < UPAGES
      ensures Present(PteAt(m, d, p)) <==> p < a
    {
      assert lo <= p < a ==> Holding(m, own0, d, p, ZeroPage(), 7);
    }
  }

  /** deallocuvm after a failure undoes what was grown. */
  lemma GrownBack(m0: Mem, own0: map<nat, Slot>, free0: seq<nat>, m1: Mem, own1: map<nat, Slot>, free1: seq<nat>,
                  n: Mem, own2: map<nat, Slot>, free2: seq<nat>, spaces: set<nat>, d: nat, lo: nat, top: nat, hi: nat,
                  lost: nat)
    requires Inv(m0, spaces, own0, free0) && Inv(m1, spaces, own1, free1) && Inv(n, spaces, own2, free2)
    requires d in spaces && lo <= top <= hi <= UPAGES && Exactly(m0, d, lo)
    requires lost != 0 ==> lost in own1 && own1[lost] == Lost && lost !in own0
    requires Grown(m0, own0, m1, own1 - {lost}, spaces, d, lo, top) && Dropped(m1, own1, n, own2, spaces, d, lo, hi)
    ensures Restored(m0, own0, n, own2 - {lost}, spaces, d, lo) && (lost != 0 ==> lost in own2 && own2[lost] == Lost)
  {
    hide Inv, PteAt, Present, Visits, TableAt, FrameOf;
    GrownExactly(m0, own0, m1, own1 - {lost}, spaces, d, lo, top);
    FreesAll(m1, own1, n, own2, spaces, d, lo, hi, top);
    NoZero(m0, spaces, own0, free0);
    forall f | f in own0
      ensures f in own2 && own2[f] == own0[f]
    {
      OldStays(m0, spaces, own0, free0, d, lo, f);
    }
    BackMap(m0, own0, m1, own1 - {lost}, own1, n, own2, spaces, d, lo, top, hi);
    forall f | f in own2 && f !in own0 && f != lost
      ensures own2[f].Tab? && own2[f].d == d
    {
      NewIsTable(m0, own0, free0, n, own2, free2, spaces, d, lo, f);
    }
  }

  lemma OldStays(m: Mem, spaces: set<nat>, own: map<nat, Slot>, free: seq<nat>, d: nat, lo: nat, f: nat)
    requires Inv(m, spaces, own, free) && Exactly(m, d, lo) && f in own
    ensures own[f].User? && own[f].d == d ==> own[f].p < lo
  {
    assert StandsAt(m, spaces, own[f], f);
  }

  lemma NewIsTable(m: Mem, own: map<nat, Slot>, free: seq<nat>, n: Mem, own2: map<nat, Slot>, free2: seq<nat>,
          spaces: set<nat>, d: nat, lo: nat, f: nat)
    requires Inv(m, spaces, own, free) && Inv(n, spaces, own2, free2) && d in spaces && Exactly(n, d, lo)
    requires lo <= UPAGES
    requires forall p :: 0 <= p < lo ==> PteAt(n, d, p) == PteAt(m, d, p)
    requires f in own2 && f !in own && OfSpace(own2[f], d)
    ensures own2[f].Tab?
  {
    assert StandsAt(n, spaces, own2[f], f);
    TableOwned(m, spaces, own, d, 0);
    if own2[f].User? && own2[f].p < lo {
      UserOwned(m, spaces, own, free, d, own2[f].p);
    }
  }

  lemma BackMap(m0: Mem, own0: map<nat, Slot>, m1: Mem, own1: map<nat, Slot>, owned1: map<nat, Slot>, n: Mem,
          own2: map<nat, Slot>,
                spaces: set<nat>, d: nat, lo: nat, top: nat, hi: nat)
    requires d in spaces && lo <= top <= hi <= UPAGES && (forall f :: f in own1 ==> f in owned1 && owned1[f] == own1[f])
    requires Grown(m0, own0, m1, own1, spaces, d, lo, top) && Dropped(m1, owned1, n, own2, spaces, d, lo, hi)
    requires forall f :: f in own0 ==> f in own2
    ensures forall d2, p2 :: d2 in spaces && 0 <= p2 < PAGES && !(d2 == d && lo <= p2 < UPAGES) ==>
      PteAt(n, d2, p2) == PteAt(m0, d2, p2)
    ensures DataKept(m0, n, own0)
  {
    hide PteAt, Visits, TableAt;
  }

  /** Owners stay, and the new ones are slots of d. */
  ghost predicate Added(own: map<nat, Slot>, own2: map<nat, Slot>, d: nat) {
    && (forall f :: f in own ==> f in own2 && own2[f] == own[f])
    && (forall f :: f in own2 && f !in own ==> OfSpace(own2[f], d))
  }

  /** From m to n, page p of d was added with bytes b, in a frame nobody had; no other
      entry, owner or byte changed. */
  ghost predicate PageAdded(m: Mem, own: map<nat, Slot>, n: Mem, own2: map<nat, Slot>, spaces: set<nat>, d: nat,
          p: nat, b: seq<nat>, perm: nat)
    requires p < PAGES
  {
    && (forall d2, p2 :: d2 in spaces && 0 <= p2 < PAGES && !(d2 == d && p2 == p) ==>
          PteAt(n, d2, p2) == PteAt(m, d2, p2))
    && Present(PteAt(n, d, p)) && Flags(PteAt(n, d, p)) == perm + (1 - perm % 2)
    && FrameOf(PteAt(n, d, p)) !in own && FrameOf(PteAt(n, d, p)) in n.frames
    && n.frames[FrameOf(PteAt(n, d, p))] == Data(b)
    && Added(own, own2, d) && DataKept(m, n, own)
  }

  /** From m to n, frame f was taken and given to nobody; d may have another table. */
  ghost predicate PageLost(m: Mem, own: map<nat, Slot>, n: Mem, own2: map<nat, Slot>, spaces: set<nat>, d: nat,
          f: nat) {
    && SameMap(m, n, spaces) && DataKept(m, n, own)
    && f !in own && f in own2 && own2[f] == Lost && Added(own, own2 - {f}, d)
  }

  lemma FillKeeps(m0: Mem, m: Mem, spaces: set<nat>, own0: map<nat, Slot>, own: map<nat, Slot>, free: seq<nat>, f: nat,
          b: seq<nat>)
    requires Inv(m, spaces, own, free) && m.frames == m0.frames && f !in own0 && own == own0[f := Other]
    ensures SameMap(m0, m.(frames := m.frames[f := Data(b)]), spaces)
    ensures DataKept(m0, m.(frames := m.frames[f := Data(b)]), own0)
  {
    var n := m.(frames := m.frames[f := Data(b)]);
    forall d2, p2 | d2 in spaces && 0 <= p2 < PAGES
      ensures PteAt(n, d2, p2) == PteAt(m0, d2, p2)
    {
      TableOwned(m, spaces, own, d2, p2 / NPT);
    }
  }

  lemma AddedPage(m0: Mem, own0: map<nat, Slot>, m1: Mem, own1: map<nat, Slot>, m: Mem, own: map<nat, Slot>,
                  spaces: set<nat>, free: seq<nat>, d: nat, p: nat, f: nat, b: seq<nat>, perm: nat)
    requires SameMap(m0, m1, spaces) && DataKept(m0, m1, own0) && f !in own0 && own1 == own0[f := Other]
    requires f in m1.frames && m1.frames[f] == Data(b) && d in spaces && p < UPAGES && perm < 4096
    requires DataKept(m1, m, own1) && Mapped(m1, m, spaces, d, p, 1, f, perm)
    requires OwnMoved(own1, own, d, p, f, 1) && f in own && own[f] == User(d, p)
    ensures PageAdded(m0, own0, m, own, spaces, d, p, b, perm)
  {
    hide Present, FrameOf, Flags, Pte, PteAt, OwnMoved, Added;
    PteFields(f, perm);
    AddedMoved(own0, own1, own, d, p, f);
    assert PteAt(m, d, p) == Pte(f, perm);
  }

  lemma AddedMoved(own0: map<nat, Slot>, own1: map<nat, Slot>, own: map<nat, Slot>, d: nat, p: nat, f: nat)
    requires f !in own0 && own1 == own0[f := Other] && OwnMoved(own1, own, d, p, f, 1) && f in own
    requires own[f] == User(d, p)
    ensures Added(own0, own, d)
  {
  }

  lemma LostPage(m0: Mem, own0: map<nat, Slot>, m1: Mem, own1: map<nat, Slot>, m: Mem, own: map<nat, Slot>,
                 spaces: set<nat>, free: seq<nat>, d: nat, p: nat, f: nat, perm: nat)
    requires SameMap(m0, m1, spaces) && DataKept(m0, m1, own0) && f !in own0 && own1 == own0[f := Other]
    requires Inv(m, spaces, own, free)
    requires DataKept(m1, m, own1) && Mapped(m1, m, spaces, d, p, 0, f, perm) && OwnMoved(own1, own, d, p, f, 0)
    ensures f in own && own[f] == Other && Inv(m, spaces, own[f := Lost], free)
    ensures PageLost(m0, own0, m, own[f := Lost], spaces, d, f)
  {
    hide Inv, PteAt, Pte;
    assert f in own1 && own1[f] == Other;
    LoseInv(m, spaces, own, free, f);
    assert Added(own0, own[f := Lost] - {f}, d);
  }

  lemma LoseInv(m: Mem, spaces: set<nat>, own: map<nat, Slot>, free: seq<nat>, f: nat)
    requires Inv(m, spaces, own, free) && f in own && own[f] == Other
    ensures Inv(m, spaces, own[f := Lost], free)
  {
    KeptFree2(m, own, own[f := Lost], free);
    hide InSlot;
    assert Claims(m, spaces, own[f := Lost]);
    forall x | x in own
      ensures x in m.frames && x != 0 && StandsAt(m, spaces, own[f := Lost][x], x)
    {
      assert StandsAt(m, spaces, own[x], x);
    }
  }

  lemma ReadyOne(m: Mem, own: map<nat, Slot>, p: nat, f: nat)
    requires f in own && own[f].Other? && f in m.frames && m.frames[f].Data?
    ensures Ready(m, own, p, 1, f)
  {
  }

  lemma RangedParts(m: Mem, own: map<nat, Slot>, free: seq<nat>, n: Mem, own2: map<nat, Slot>, free2: seq<nat>,
                    spaces: set<nat>, d: nat, a: nat, k: nat, f0: nat, perm: nat)
    requires Ranged(m, own, free, n, own2, free2, spaces, d, a, k, f0, perm)
    ensures Mapped(m, n, spaces, d, a, k, f0, perm) && OwnMoved(own, own2, d, a, f0, k) && DataKept(m, n, own)
    ensures Suffix(free, free2)
  {
  }

  lemma MappedOwner(m: Mem, n: Mem, spaces: set<nat>, own: map<nat, Slot>, free: seq<nat>, d: nat, p: nat, f: nat,
          perm: nat)
    requires Mapped(m, n, spaces, d, p, 1, f, perm) && Inv(n, spaces, own, free) && d in spaces && p < UPAGES
    requires perm < 4096
    ensures f in own && own[f] == User(d, p)
  {
    PteFields(f, perm);
    UserOwned(n, spaces, own, free, d, p);
  }

  /** Slot of directory d. */
  predicate OfSpace(s: Slot, d: nat) { (s.Dir? || s.Tab? || s.User?) && s.d == d }

  /** From m to n, exactly the frames of directory d are given up. */
  ghost predicate Released(m: Mem, own: map<nat, Slot>, n: Mem, own2: map<nat, Slot>, rest: set<nat>, d: nat) {
    && (forall f :: f in own2 <==> f in own && !OfSpace(own[f], d))
    && (forall f :: f in own2 ==> own2[f] == own[f])
    && (forall d2, p2 :: d2 in rest && 0 <= p2 < PAGES ==> PteAt(n, d2, p2) == PteAt(m, d2, p2))
    && (forall f :: f in own2 && f in m.frames && m.frames[f].Data? ==> f in n.frames && n.frames[f] == m.frames[f])
  }

  lemma ShedSame2(m: Mem, own: map<nat, Slot>, n: Mem, own2: map<nat, Slot>, rest: set<nat>, d: nat, i: nat)
    requires Shed(m, own, n, own2, rest, d, i)
    ensures TableAt(n, d) == TableAt(m, d)
  {
    ShedSame(m, own, n, own2, rest, d, i);
  }

  lemma RetireExactly(m: Mem, spaces: set<nat>, own: map<nat, Slot>, free: seq<nat>, d: nat)
    requires Inv(m, spaces, own, free) && d in spaces && Exactly(m, d, 0)
    ensures Inv(m, spaces - {d}, InHand(own, d), free)
    ensures forall f :: f in own ==> !(own[f].User? && own[f].d == d)
  {
    RetireInv(m, spaces, own, free, d);
    forall f | f in own
      ensures !(own[f].User? && own[f].d == d)
    {
      assert StandsAt(m, spaces, own[f], f);
    }
  }

  /** What a directory without user pages owns: its tables, and itself. */
  lemma SpaceOwns(m: Mem, spaces: set<nat>, own: map<nat, Slot>, free: seq<nat>, d: nat, f: nat)
    requires Inv(m, spaces, own, free) && d in spaces && Exactly(m, d, 0) && f in own
    ensures OfSpace(own[f], d) <==> f == d || (own[f].Tab? && own[f].d == d && own[f].i < NPT)
  {
    RetireExactly(m, spaces, own, free, d);
    assert StandsAt(m, spaces, own[f], f);
    TableOwned(m, spaces, own, d, 0);
  }

  lemma ShedOwners(m0: Mem, own0: map<nat, Slot>, m1: Mem, all: set<nat>, own1: map<nat, Slot>, free1: seq<nat>,
                   n: Mem, own2: map<nat, Slot>, d: nat, f: nat)
    requires Dropped(m0, own0, m1, own1, all, d, 0, UPAGES) && Inv(m1, all, own1, free1) && d in all
    requires Exactly(m1, d, 0)
    requires Shed(m1, own1, n, own2, all - {d}, d, NPT)
    ensures f in own2 - {d} <==> f in own0 && !OfSpace(own0[f], d)
    ensures f in own2 - {d} ==> own2[f] == own0[f] && f in own1
  {
    hide Inv, PteAt, TableAt, Exactly, Visits;
    if f in own1 {
      SpaceOwns(m1, all, own1, free1, d, f);
    }
  }

  /** deallocuvm, the tables and the directory together. */
  lemma ShedAll(m0: Mem, own0: map<nat, Slot>, m1: Mem, all: set<nat>, own1: map<nat, Slot>, free1: seq<nat>,
                n: Mem, own2: map<nat, Slot>, free2: seq<nat>, d: nat)
    requires Dropped(m0, own0, m1, own1, all, d, 0, UPAGES) && Inv(m1, all, own1, free1) && d in all
    requires Exactly(m1, d, 0)
    requires Shed(m1, own1, n, own2, all - {d}, d, NPT) && Inv(n, all - {d}, own2, free2)
    ensures d in own2 && own2[d] == Other && d in n.frames
    ensures Released(m0, own0, Pushed(n, d), own2 - {d}, all - {d}, d)
  {
    hide Inv, PteAt, TableAt, Exactly, Visits, OfSpace, InHand;
    var o, own3, rest := Pushed(n, d), own2 - {d}, all - {d};
    forall d2, p2 | d2 in rest && 0 <= p2 < PAGES
      ensures PteAt(o, d2, p2) == PteAt(m0, d2, p2)
    {
      PushDenotesInv(n, rest, own2, free2, d, d2, p2);
    }
    forall f
      ensures f in own3 <==> f in own0 && !OfSpace(own0[f], d)
      ensures f in own3 ==> own3[f] == own0[f] && f in own1
    {
      ShedOwners(m0, own0, m1, all, own1, free1, n, own2, d, f);
    }
  }

  lemma PushDenotesInv(m: Mem, spaces: set<nat>, own: map<nat, Slot>, free: seq<nat>, f: nat, d: nat, p: nat)
    requires Inv(m, spaces, own, free) && f in own && own[f] == Other && d in spaces && p < PAGES
    ensures PteAt(Pushed(m, f), d, p) == PteAt(m, d, p)
  {
    PushDenotes(m, spaces, own, f, d, p);
  }

  lemma VisitsFirst(m: Mem, d: nat, lo: nat)
    requires lo < PAGES
    ensures Visits(m, d, lo, lo)
  {
  }

  lemma VisitsAfter(m: Mem, d: nat, lo: nat, a: nat, hi: nat)
    requires lo <= a < hi <= UPAGES && Visits(m, d, lo, a)
    ensures After(m, d, a) < hi ==> Visits(m, d, lo, After(m, d, a))
  {
    if After(m, d, a) < hi {
      VisitsOn(m, d, lo, a, After(m, d, a));
    }
  }

  /** Page a is as it was before the loop, and so are the page directories. */
  lemma DroppedAt(m: Mem, own: map<nat, Slot>, n: Mem, own2: map<nat, Slot>, spaces: set<nat>, d: nat, lo: nat, a: nat)
    requires lo <= a < UPAGES && d in spaces && Dropped(m, own, n, own2, spaces, d, lo, a)
    ensures PteAt(n, d, a) == PteAt(m, d, a) && TableAt(n, d) == TableAt(m, d)
  {
  }

  lemma TableEntry(m: Mem, d: nat, p: nat)
    requires p < PAGES && Present(Pde(m, d, p / NPT))
    ensures TableAt(m, TableOf(m, d, p))[p % NPT] == PteAt(m, d, p)
  {
  }

  /** kfree, then the write to the entry. */
  lemma UnpagedSteps(m: Mem, d: nat, p: nat)
    requires p < PAGES && d != FrameOf(PteAt(m, d, p))
    ensures var n := Pushed(m, FrameOf(PteAt(m, d, p))); var t := TableOf(m, d, p);
      Unpaged(m, d, p) == n.(frames := n.frames[t := Table(TableAt(n, t)[p % NPT := 0])])
  {
    PushedTable(m, FrameOf(PteAt(m, d, p)), d);
  }

  /** What mapping k pages of directory d does: exactly those entries, none of them present
      before; no byte of an owned page; no owner but those of the frames mapped. */
  ghost predicate Ranged(m: Mem, own: map<nat, Slot>, free: seq<nat>, n: Mem, own2: map<nat, Slot>, free2: seq<nat>,
                         spaces: set<nat>, d: nat, a: nat, k: nat, f0: nat, perm: nat)
  {
    && Mapped(m, n, spaces, d, a, k, f0, perm) && OwnMoved(own, own2, d, a, f0, k)
    && DataKept(m, n, own) && Suffix(free, free2)
    && forall p :: a <= p < a + k && p < PAGES ==> !Present(PteAt(m, d, p))
  }

  lemma RangedNone(m: Mem, own: map<nat, Slot>, free: seq<nat>, spaces: set<nat>, d: nat, a: nat, f0: nat, perm: nat)
    ensures Ranged(m, own, free, m, own, free, spaces, d, a, 0, f0, perm)
  {
    MappedNone(m, spaces, d, a, f0, perm);
    KeptNone(m, own, free, d, a, f0);
  }

  /** The next page is as it was, and its frame, if it needs one, still in hand. */
  lemma RangedAt(m: Mem, own: map<nat, Slot>, free: seq<nat>, n: Mem, own2: map<nat, Slot>, free2: seq<nat>,
                 spaces: set<nat>, d: nat, a: nat, k: nat, len: nat, f0: nat, perm: nat)
    requires Ranged(m, own, free, n, own2, free2, spaces, d, a, k, f0, perm) && Ready(m, own, a, len, f0) && k < len
    requires d in spaces && a + k < PAGES
    ensures PteAt(n, d, a + k) == PteAt(m, d, a + k)
    ensures a + k < UPAGES ==> f0 + k in own2 && own2[f0 + k].Other? && f0 + k in n.frames && n.frames[f0 + k].Data?
  {
    MappedAt(m, n, spaces, d, a, k, f0, perm);
    ReadyAt(m, n, own, own2, d, a, len, f0, k);
  }

  lemma RangedMore(m: Mem, own: map<nat, Slot>, free: seq<nat>, n: Mem, own1: map<nat, Slot>, free1: seq<nat>,
                   o: Mem, own2: map<nat, Slot>, free2: seq<nat>, spaces: set<nat>, d: nat, a: nat, k: nat, f0: nat,
                   perm: nat)
    requires Ranged(m, own, free, n, own1, free1, spaces, d, a, k, f0, perm) && d in spaces && a + k < PAGES
    requires Mapped(n, o, spaces, d, a + k, 1, f0 + k, perm) && OwnMoved(own1, own2, d, a + k, f0 + k, 1)
    requires DataKept(n, o, own1) && Suffix(free1, free2) && !Present(PteAt(n, d, a + k))
    ensures Ranged(m, own, free, o, own2, free2, spaces, d, a, k + 1, f0, perm)
  {
    MappedAt(m, n, spaces, d, a, k, f0, perm);
    MappedMore(m, n, o, spaces, d, a, k, f0, perm);
    OwnMovedMore(own, own1, own2, d, a, f0, k);
    KeptTwo(m, n, o, own, own1, d, a, f0, k);
    SuffixTwo(free, free1, free2);
    hide Mapped, OwnMoved, DataKept, Suffix, PteAt;
  }

  /** Pages a, .., a + k - 1 of directory d go to frames f0, .., and no other entry changes. */
  ghost predicate Mapped(m: Mem, n: Mem, spaces: set<nat>, d: nat, a: nat, k: nat, f0: nat, perm: nat) {
    forall d2, p2 :: d2 in spaces && 0 <= p2 < PAGES ==>
      PteAt(n, d2, p2) == if d2 == d && a <= p2 < a + k then Pte(f0 + (p2 - a), perm) else PteAt(m, d2, p2)
  }

  /** Owners stay, but for frames in hand that were mapped; d may have more page tables. */
  ghost predicate OwnMoved(own: map<nat, Slot>, own2: map<nat, Slot>, d: nat, a: nat, f0: nat, k: nat) {
    && (forall f :: f in own ==> f in own2)
    && (forall f :: f in own && !(f0 <= f < f0 + k && own[f].Other? && a + (f - f0) < UPAGES) ==> own2[f] == own[f])
    && (forall f :: f in own && f0 <= f < f0 + k && own2[f] != own[f] ==> own2[f] == User(d, a + (f - f0)))
    && (forall f :: f in own2 && f !in own ==> own2[f].Tab? && own2[f].d == d)
  }

  /** The frames for the user pages of a range are in hand. */
  ghost predicate Ready(m: Mem, own: map<nat, Slot>, a: nat, n: nat, f0: nat) {
    forall f :: f0 <= f < f0 + n && a + (f - f0) < UPAGES ==>
      f in own && own[f].Other? && f in m.frames && m.frames[f].Data?
  }

  /** An entry that is present has a page table. */
  lemma PresentTable(m: Mem, d: nat, p: nat)
    requires p < PAGES
    ensures Present(PteAt(m, d, p)) ==> Present(Pde(m, d, p / NPT))
  {
  }

  lemma InTabs(m: Mem, d: nat, p: nat)
    requires p < PAGES
    ensures TabNo(p) in Tabs(m, d) <==> Present(Pde(m, d, p / NPT))
    ensures TabNo(p) in Tabs(m, d) ==> Tabs(m, d) + {TabNo(p)} == Tabs(m, d)
  {
  }

  lemma NotDir(m: Mem, spaces: set<nat>, own: map<nat, Slot>, free: seq<nat>, d: nat, f: nat)
    requires Inv(m, spaces, own, free) && d in spaces && f in own && own[f].Other?
    ensures f != d
  {
    TableOwned(m, spaces, own, d, 0);
  }

  lemma WithPteTabs(m: Mem, spaces: set<nat>, own: map<nat, Slot>, free: seq<nat>, d: nat, p: nat, w: nat)
    requires Inv(m, spaces, own, free) && d in spaces && p < PAGES && Present(Pde(m, d, p / NPT))
    ensures Tabs(WithPte(m, d, p, w), d) == Tabs(m, d)
  {
    WithPteDenotes(m, spaces, own, d, p, w, d, 0);
    SameTabs(m, WithPte(m, d, p, w), d);
  }

  lemma FillTabs(m0: Mem, m: Mem, spaces: set<nat>, own: map<nat, Slot>, free: seq<nat>, d: nat, f: nat, b: seq<nat>)
    requires Inv(m, spaces, own, free) && d in spaces && f in own && own[f].Other? && m.frames == m0.frames
    ensures Tabs(m.(frames := m.frames[f := Data(b)]), d) == Tabs(m0, d)
  {
    NotDir(m, spaces, own, free, d, f);
    SameTabs(m0, m.(frames := m.frames[f := Data(b)]), d);
  }

  lemma SameTable(m: Mem, n: Mem, d: nat)
    requires n.frames == m.frames
    ensures TableAt(n, d) == TableAt(m, d)
  {
  }

  lemma WalkNone(m: Mem, spaces: set<nat>, own: map<nat, Slot>, free: seq<nat>, d: nat)
    ensures SameMap(m, m, spaces) && Grew(own, own, d) && DataKept(m, m, own) && Suffix(free, free)
  {
  }

  lemma SameMapAt(m: Mem, n: Mem, spaces: set<nat>, d: nat, p: nat)
    requires SameMap(m, n, spaces) && d in spaces && p < PAGES
    ensures PteAt(n, d, p) == PteAt(m, d, p)
  {
  }

  lemma GrewAt(own: map<nat, Slot>, own2: map<nat, Slot>, d: nat, f: nat)
    requires Grew(own, own2, d)
    ensures f in own ==> f in own2 && own2[f] == own[f]
  {
  }

  lemma KeptData(m: Mem, n: Mem, own: map<nat, Slot>, f: nat)
    requires DataKept(m, n, own)
    ensures f in own && f in m.frames && m.frames[f].Data? ==> f in n.frames && n.frames[f] == m.frames[f]
  {
  }

  /** walkpgdir's new page table, after kalloc made m0 into m. */
  lemma NewTable(m0: Mem, own0: map<nat, Slot>, free0: seq<nat>, m: Mem, spaces: set<nat>, own: map<nat, Slot>,
          free: seq<nat>, d: nat, p: nat, f: nat)
    requires Inv(m, spaces, own, free) && d in spaces && p < PAGES && !Present(Pde(m, d, p / NPT))
    requires m.frames == m0.frames
    requires f !in own0 && own == own0[f := Other] && free0 != [] && free == free0[1..]
    ensures var n := WithTable(m, d, p / NPT, f); var own2 := own[f := Tab(d, p / NPT)];
      && SameMap(m0, n, spaces) && Grew(own0, own2, d) && DataKept(m0, n, own0) && Suffix(free0, free)
      && Present(Pde(n, d, p / NPT)) && TableOf(n, d, p) == f
  {
    hide Inv, PteAt, Present, FrameOf, Suffix;
    var n := WithTable(m, d, p / NPT, f);
    forall d2, p2 | d2 in spaces && 0 <= p2 < PAGES
      ensures PteAt(n, d2, p2) == PteAt(m0, d2, p2)
    {
      NewTableDenotes(m, spaces, own, free, d, p / NPT, f, d2, p2);
      SameFrames(m0, m, d2, p2);
    }
    NewTableDenotes(m, spaces, own, free, d, p / NPT, f, d, p);
    PteFields(f, 6);
    DirFrame(m, spaces, own, free, d);
    TailSuffix(free0);
  }

  lemma TailSuffix(free: seq<nat>)
    requires free != []
    ensures Suffix(free, free[1..])
  {
  }

  lemma DirFrame(m: Mem, spaces: set<nat>, own: map<nat, Slot>, free: seq<nat>, d: nat)
    requires Inv(m, spaces, own, free) && d in spaces
    ensures d in m.frames && m.frames[d].Table?
  {
    TableOwned(m, spaces, own, d, 0);
    assert StandsAt(m, spaces, own[d], d);
  }

  lemma NewTableDenotes(m: Mem, spaces: set<nat>, own: map<nat, Slot>, free: seq<nat>, d: nat, i: nat, f: nat, d2: nat,
          p2: nat)
    requires Inv(m, spaces, own, free) && d in spaces && i < NPT && !Present(Pde(m, d, i)) && f in own && own[f].Other?
    requires d2 in spaces && p2 < PAGES
    ensures PteAt(WithTable(m, d, i, f), d2, p2) == PteAt(m, d2, p2)
    ensures Pde(WithTable(m, d, i, f), d2, p2 / NPT) ==
      if d2 == d && p2 / NPT == i then Pte(f, 6) else Pde(m, d2, p2 / NPT)
  {
    WithTableDenotes(m, spaces, own, d, i, f, d2, p2);
  }

  /** The write of an entry after the walk, seen from before it. */
  lemma MapPageKeeps(m0: Mem, own0: map<nat, Slot>, m: Mem, spaces: set<nat>, own: map<nat, Slot>, free: seq<nat>,
          d: nat, p: nat, f: nat, w: nat)
    requires Inv(m, spaces, own, free) && d in spaces && p < PAGES && Present(Pde(m, d, p / NPT))
    requires Grew(own0, own, d) && DataKept(m0, m, own0)
    ensures DataKept(m0, WithPte(m, d, p, w), own0) && OwnMoved(own0, own, d, p, f, 1)
    ensures f in own0 && own0[f].Other? && p < UPAGES ==> OwnMoved(own0, own[f := User(d, p)], d, p, f, 1)
  {
    hide Inv, WithPte, TableAt, Grew, OwnMoved;
    WalkKeepsData(m, spaces, own, free, d, p, w);
    GrewMoved(own0, own, d, p, f);
    WithPteFrames(m, d, p, w);
  }

  lemma WithPteFrames(m: Mem, d: nat, p: nat, w: nat)
    requires p < PAGES
    ensures forall f :: f in m.frames ==> f in WithPte(m, d, p, w).frames
  {
  }

  lemma GrewMoved(own0: map<nat, Slot>, own: map<nat, Slot>, d: nat, p: nat, f: nat)
    requires Grew(own0, own, d)
    ensures OwnMoved(own0, own, d, p, f, 1)
    ensures f in own0 && own0[f].Other? && p < UPAGES ==> OwnMoved(own0, own[f := User(d, p)], d, p, f, 1)
  {
  }

  lemma MapPageDenotes(m0: Mem, m: Mem, spaces: set<nat>, own: map<nat, Slot>, free: seq<nat>, d: nat, p: nat, f: nat,
          perm: nat)
    requires Inv(m, spaces, own, free) && d in spaces && p < PAGES && Present(Pde(m, d, p / NPT))
    requires SameMap(m0, m, spaces)
    ensures Mapped(m0, WithPte(m, d, p, Pte(f, perm)), spaces, d, p, 1, f, perm)
  {
    var n := WithPte(m, d, p, Pte(f, perm));
    forall d2, p2 | d2 in spaces && 0 <= p2 < PAGES
      ensures PteAt(n, d2, p2) == if d2 == d && p <= p2 < p + 1 then Pte(f + (p2 - p), perm) else PteAt(m0, d2, p2)
    {
      WithPteDenotes(m, spaces, own, d, p, Pte(f, perm), d2, p2);
    }
  }

  /** A write to a page table is no write to a page. */
  lemma WalkKeepsData(m: Mem, spaces: set<nat>, own: map<nat, Slot>, free: seq<nat>, d: nat, p: nat, w: nat)
    requires Inv(m, spaces, own, free) && d in spaces && p < PAGES && Present(Pde(m, d, p / NPT))
    ensures forall f :: f in m.frames && m.frames[f].Data? ==> WithPte(m, d, p, w).frames[f] == m.frames[f]
  {
    TableOwned(m, spaces, own, d, p / NPT);
    assert StandsAt(m, spaces, own[TableOf(m, d, p)], TableOf(m, d, p));
  }

  lemma MappedNone(m: Mem, spaces: set<nat>, d: nat, a: nat, f0: nat, perm: nat)
    ensures Mapped(m, m, spaces, d, a, 0, f0, perm)
  {
  }

  lemma MappedAt(m: Mem, n: Mem, spaces: set<nat>, d: nat, a: nat, k: nat, f0: nat, perm: nat)
    requires Mapped(m, n, spaces, d, a, k, f0, perm) && d in spaces && a + k < PAGES
    ensures PteAt(n, d, a + k) == PteAt(m, d, a + k)
  {
  }

  lemma MappedMore(m: Mem, n: Mem, o: Mem, spaces: set<nat>, d: nat, a: nat, k: nat, f0: nat, perm: nat)
    requires Mapped(m, n, spaces, d, a, k, f0, perm) && Mapped(n, o, spaces, d, a + k, 1, f0 + k, perm)
    ensures Mapped(m, o, spaces, d, a, k + 1, f0, perm)
  {
    hide PteAt;
    forall d2, p2 | d2 in spaces && 0 <= p2 < PAGES
      ensures PteAt(o, d2, p2) ==
        if d2 == d && a <= p2 < a + (k + 1) then Pte(f0 + (p2 - a), perm) else PteAt(m, d2, p2)
    {
      assert PteAt(o, d2, p2) ==
        if d2 == d && a + k <= p2 < a + k + 1 then Pte(f0 + k + (p2 - (a + k)), perm) else PteAt(n, d2, p2);
    }
  }

  lemma OwnMovedMore(own: map<nat, Slot>, own1: map<nat, Slot>, own2: map<nat, Slot>, d: nat, a: nat, f0: nat, k: nat)
    requires OwnMoved(own, own1, d, a, f0, k) && OwnMoved(own1, own2, d, a + k, f0 + k, 1)
    ensures OwnMoved(own, own2, d, a, f0, k + 1)
  {
  }

  lemma ReadyAt(m: Mem, n: Mem, own: map<nat, Slot>, own2: map<nat, Slot>, d: nat, a: nat, len: nat, f0: nat, k: nat)
    requires Ready(m, own, a, len, f0) && k < len && DataKept(m, n, own) && OwnMoved(own, own2, d, a, f0, k)
    ensures a + k < UPAGES ==> f0 + k in own2 && own2[f0 + k].Other? && f0 + k in n.frames && n.frames[f0 + k].Data?
  {
    if a + k < UPAGES {
      assert f0 + k in own;
    }
  }

  lemma KeptNone(m: Mem, own: map<nat, Slot>, free: seq<nat>, d: nat, a: nat, f0: nat)
    ensures DataKept(m, m, own) && OwnMoved(own, own, d, a, f0, 0) && Suffix(free, free)
  {
  }

  lemma SuffixTwo(a: seq<nat>, b: seq<nat>, c: seq<nat>)
    requires Suffix(a, b) && Suffix(b, c)
    ensures Suffix(a, c)
  {
  }

  lemma KeptTwo(m: Mem, n: Mem, o: Mem, own: map<nat, Slot>, own1: map<nat, Slot>, d: nat, a: nat, f0: nat, k: nat)
    requires DataKept(m, n, own) && OwnMoved(own, own1, d, a, f0, k) && DataKept(n, o, own1)
    ensures DataKept(m, o, own)
  {
  }

  /** A frame before the allocator has it. */
  function Unused(f: nat): Frame { Data([]) }

  function Untaken(f: nat): Slot { Other }

  lemma BootInv(m: Mem, own: map<nat, Slot>)
    requires m.head == 0 && own.Keys == m.frames.Keys && 0 !in own && forall f :: f in own ==> own[f] == Other
    ensures Inv(m, {}, own, [])
  {
  }

  lemma SameFrames(m: Mem, n: Mem, d: nat, p: nat)
    requires n.frames == m.frames && p < PAGES
    ensures PteAt(n, d, p) == PteAt(m, d, p)
  {
  }
}
