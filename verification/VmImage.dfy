/** Physical frames, two-level page tables and the free list as values: the words vm.c and
    kalloc.c write, what they denote, and who owns which frame. A page number is an
    address divided by 4096. */
module VmImage {
  import opened Common

  const NPT := 1024
  /** Pages below KERNBASE. */
  const UPAGES := 0x8_0000
  const PAGES := 0x10_0000

  /** A free page holds the link of kalloc.c's list; the others hold words or bytes. */
  datatype Frame = Run(next: nat) | Table(w: seq<nat>) | Data(b: seq<nat>)

  /** head: kmem.freelist, 0 for null. */
  datatype Mem = Mem(frames: map<nat, Frame>, head: nat)

  // ------------------------------------------------------------ entries

  predicate Present(w: nat) { w % 2 == 1 }

  function FrameOf(w: nat): nat { w / 4096 }

  function Flags(w: nat): nat { w % 4096 }

  /** pa | perm | PTE_P, for the page-aligned pa of a frame. */
  function Pte(f: nat, perm: nat): nat { 4096 * f + perm + (1 - perm % 2) }

  lemma PteFields(f: nat, perm: nat)
    requires perm < 4096
    ensures Present(Pte(f, perm)) && FrameOf(Pte(f, perm)) == f && Flags(Pte(f, perm)) == perm + (1 - perm % 2)
  {
    var r := perm + (1 - perm % 2);
    assert r < 4096 && r == 2 * (r / 2) + 1;
    assert Pte(f, perm) == 2 * (2048 * f + r / 2) + 1;
  }

  // ------------------------------------------------------------ what the tables denote

  function Zeros(): (r: seq<nat>)
    ensures |r| == NPT && forall i :: 0 <= i < NPT ==> r[i] == 0
  {
    seq(NPT, _ => 0)
  }

  function TableAt(m: Mem, f: nat): (r: seq<nat>)
    ensures |r| == NPT
  {
    if f in m.frames && m.frames[f].Table? && |m.frames[f].w| == NPT then m.frames[f].w else Zeros()
  }

  function Pde(m: Mem, d: nat, i: nat): nat
    requires i < NPT
  {
    TableAt(m, d)[i]
  }

  /** The entry of page p in directory d, 0 where there is no page table. */
  function PteAt(m: Mem, d: nat, p: nat): nat
    requires p < PAGES
  {
    var e := Pde(m, d, p / NPT);
    if Present(e) then TableAt(m, FrameOf(e))[p % NPT] else 0
  }

  // ------------------------------------------------------------ owners

  /** A frame is a directory, a page table of one, a user page of one, or someone
      else's (Other; Lost when nobody points at it any more). */
  datatype Slot = Dir(d: nat) | Tab(d: nat, i: nat) | User(d: nat, p: nat) | Other | Lost

  predicate SlotOk(spaces: set<nat>, s: Slot) {
    match s
    case Dir(d) => d in spaces
    case Tab(d, i) => d in spaces && i < NPT
    case User(d, p) => d in spaces && p < UPAGES
    case _ => false
  }

  /** The frame in a slot, -1 for none. */
  function InSlot(m: Mem, spaces: set<nat>, s: Slot): int
    requires SlotOk(spaces, s)
  {
    match s
    case Dir(d) => d
    case Tab(d, i) => if Present(Pde(m, d, i)) then FrameOf(Pde(m, d, i)) else -1
    case User(d, p) => if Present(PteAt(m, d, p)) then FrameOf(PteAt(m, d, p)) else -1
  }

  /** Every frame in a slot is owned by that slot. */
  ghost predicate Claims(m: Mem, spaces: set<nat>, own: map<nat, Slot>) {
    forall s :: SlotOk(spaces, s) && InSlot(m, spaces, s) != -1 ==>
      InSlot(m, spaces, s) >= 0 && InSlot(m, spaces, s) in own && own[InSlot(m, spaces, s)] == s
  }

  /** Every frame owned by a slot stands in it, and holds what it should. */
  ghost predicate Stands(m: Mem, spaces: set<nat>, own: map<nat, Slot>) {
    forall f :: f in own ==> f in m.frames && f != 0 && StandsAt(m, spaces, own[f], f)
  }

  predicate StandsAt(m: Mem, spaces: set<nat>, s: Slot, f: nat) {
    s.Other? || s.Lost? ||
    (SlotOk(spaces, s) && InSlot(m, spaces, s) == f && f in m.frames &&
     if s.User? then m.frames[f].Data? else m.frames[f].Table? && |m.frames[f].w| == NPT)
  }

  // ------------------------------------------------------------ the free list

  predicate List(frames: map<nat, Frame>, from: nat, free: seq<nat>)
    decreases |free|
  {
    if free == [] then from == 0
    else
      && from == free[0] && from != 0 && from in frames && frames[from].Run?
      && List(frames, frames[from].next, free[1..])
  }

  /** Every frame is owned or free, and none is both: nothing is lost or given out twice. */
  ghost predicate Shared(m: Mem, own: map<nat, Slot>, free: seq<nat>) {
    && List(m.frames, m.head, free) && Distinct(free)
    && (forall i :: 0 <= i < |free| ==> free[i] !in own)
    && (forall f :: f in m.frames <==> f in own || f in free)
  }

  ghost predicate Inv(m: Mem, spaces: set<nat>, own: map<nat, Slot>, free: seq<nat>) {
    Claims(m, spaces, own) && Stands(m, spaces, own) && Shared(m, own, free)
  }

  lemma {:induction false} ListKept(a: map<nat, Frame>, b: map<nat, Frame>, from: nat, free: seq<nat>)
    requires List(a, from, free)
    requires forall i :: 0 <= i < |free| ==> free[i] in b && free[i] in a && b[free[i]] == a[free[i]]
    ensures List(b, from, free)
    decreases |free|
  {
    if free != [] {
      assert forall i :: 0 <= i < |free[1..]| ==> free[1..][i] == free[i + 1];
      ListKept(a, b, a[from].next, free[1..]);
    }
  }

  lemma {:induction false} ListIn(a: map<nat, Frame>, from: nat, free: seq<nat>)
    requires List(a, from, free)
    ensures forall i :: 0 <= i < |free| ==> free[i] in a && free[i] != 0
    decreases |free|
  {
    if free != [] {
      ListIn(a, a[from].next, free[1..]);
      assert forall i :: 1 <= i < |free| ==> free[i] == free[1..][i - 1];
    }
  }

  // ------------------------------------------------------------ writing a table entry

  /** Word i of the table in frame t becomes w. */
  function SetWord(m: Mem, t: nat, i: nat, w: nat): Mem
    requires i < NPT
  {
    m.(frames := m.frames[t := Table(TableAt(m, t)[i := w])])
  }

  lemma SetWordAt(m: Mem, t: nat, i: nat, w: nat, f: nat)
    requires i < NPT
    ensures TableAt(SetWord(m, t, i, w), f) == if f == t then TableAt(m, t)[i := w] else TableAt(m, f)
  {
  }

  /** A frame that no slot owns is no table of any space. */
  lemma TableOwned(m: Mem, spaces: set<nat>, own: map<nat, Slot>, d: nat, i: nat)
    requires Claims(m, spaces, own) && d in spaces && i < NPT
    ensures d in own && own[d] == Dir(d)
    ensures Present(Pde(m, d, i)) ==> FrameOf(Pde(m, d, i)) in own && own[FrameOf(Pde(m, d, i))] == Tab(d, i)
  {
    assert SlotOk(spaces, Dir(d)) && InSlot(m, spaces, Dir(d)) == d;
    assert SlotOk(spaces, Tab(d, i));
  }

  // ------------------------------------------------------------ taking and giving frames

  /** kalloc's effect. */
  function Popped(m: Mem): Mem
    requires m.head in m.frames && m.frames[m.head].Run?
  {
    m.(head := m.frames[m.head].next)
  }

  /** kfree's. */
  function Pushed(m: Mem, f: nat): Mem { Mem(m.frames[f := Run(m.head)], f) }

  /** Slots see only the tables. */
  lemma SameSlots(m: Mem, n: Mem, spaces: set<nat>, s: Slot)
    requires SlotOk(spaces, s) && TableAt(n, s.d) == TableAt(m, s.d)
    requires s.User? && Present(Pde(m, s.d, s.p / NPT)) ==>
      TableAt(n, FrameOf(Pde(m, s.d, s.p / NPT))) == TableAt(m, FrameOf(Pde(m, s.d, s.p / NPT)))
    ensures InSlot(n, spaces, s) == InSlot(m, spaces, s)
  {
  }

  lemma PopInv(m: Mem, spaces: set<nat>, own: map<nat, Slot>, free: seq<nat>)
    requires Inv(m, spaces, own, free) && free != []
    ensures m.head == free[0] && m.head != 0 && m.head in m.frames && m.frames[m.head].Run?
    ensures Inv(Popped(m), spaces, own[m.head := Other], free[1..])
  {
    var f := free[0];
    var n, own2 := Popped(m), own[f := Other];
    assert f !in own;
    forall s | SlotOk(spaces, s)
      ensures InSlot(n, spaces, s) == InSlot(m, spaces, s)
    {
      SameSlots(m, n, spaces, s);
    }
    TailIn(free);
    hide InSlot;
    assert Claims(n, spaces, own2);
    assert Stands(n, spaces, own2);
  }

  lemma TailIn(free: seq<nat>)
    requires free != [] && Distinct(free)
    ensures Distinct(free[1..]) && forall x :: x in free[1..] <==> x in free && x != free[0]
  {
  }

  /** Giving back a frame that is in hand. */
  lemma PushInv(m: Mem, spaces: set<nat>, own: map<nat, Slot>, free: seq<nat>, f: nat)
    requires Inv(m, spaces, own, free) && f in own && own[f] == Other
    ensures Inv(Pushed(m, f), spaces, own - {f}, [f] + free)
  {
    var n, own2 := Pushed(m, f), own - {f};
    forall s | SlotOk(spaces, s)
      ensures InSlot(n, spaces, s) == InSlot(m, spaces, s)
    {
      TableOwned(m, spaces, own, s.d, if s.User? then s.p / NPT else 0);
      SameSlots(m, n, spaces, s);
    }
    PushList(m, own, free, f);
    hide InSlot;
    assert Claims(n, spaces, own2);
    assert Stands(n, spaces, own2);
  }

  lemma PushList(m: Mem, own: map<nat, Slot>, free: seq<nat>, f: nat)
    requires Shared(m, own, free) && f in own && f != 0
    ensures Shared(Pushed(m, f), own - {f}, [f] + free)
  {
    ListIn(m.frames, m.head, free);
    var n := Pushed(m, f);
    ListKept(m.frames, n.frames, m.head, free);
    assert ([f] + free)[1..] == free;
    assert List(n.frames, n.head, [f] + free);
  }

  // ------------------------------------------------------------ page tables

  /** walkpgdir's new page table: a zeroed frame, and the entry that points at it. */
  function WithTable(m: Mem, d: nat, i: nat, f: nat): Mem
    requires i < NPT
  {
    SetWord(m.(frames := m.frames[f := Table(Zeros())]), d, i, Pte(f, 6))
  }

  lemma WithTableAt(m: Mem, d: nat, i: nat, f: nat, x: nat)
    requires i < NPT && f != d
    ensures TableAt(WithTable(m, d, i, f), x) ==
      if x == f then Zeros() else if x == d then TableAt(m, d)[i := Pte(f, 6)] else TableAt(m, x)
  {
    SetWordAt(m.(frames := m.frames[f := Table(Zeros())]), d, i, Pte(f, 6), x);
  }

  /** The new table denotes nothing that was not denoted before. */
  lemma WithTableDenotes(m: Mem, spaces: set<nat>, own: map<nat, Slot>, d: nat, i: nat, f: nat, d2: nat, p2: nat)
    requires Claims(m, spaces, own) && d in spaces && i < NPT && !Present(Pde(m, d, i)) && f in own && own[f].Other?
    requires d2 in spaces && p2 < PAGES
    ensures PteAt(WithTable(m, d, i, f), d2, p2) == PteAt(m, d2, p2)
    ensures Pde(WithTable(m, d, i, f), d2, p2 / NPT) ==
      if d2 == d && p2 / NPT == i then Pte(f, 6) else Pde(m, d2, p2 / NPT)
  {
    TableOwned(m, spaces, own, d, i);
    TableOwned(m, spaces, own, d2, p2 / NPT);
    PteFields(f, 6);
    WithTableAt(m, d, i, f, d2);
    WithTableAt(m, d, i, f, if Present(Pde(m, d2, p2 / NPT)) then FrameOf(Pde(m, d2, p2 / NPT)) else f);
    WithTableAt(m, d, i, f, f);
    hide WithTable, Pte, FrameOf, Present;
  }

  lemma WithTableSlots(m: Mem, spaces: set<nat>, own: map<nat, Slot>, free: seq<nat>, d: nat, i: nat, f: nat)
    requires Inv(m, spaces, own, free) && d in spaces && i < NPT && !Present(Pde(m, d, i)) && f in own && own[f].Other?
    ensures forall s :: SlotOk(spaces, s) ==>
      InSlot(WithTable(m, d, i, f), spaces, s) == if s == Tab(d, i) then f else InSlot(m, spaces, s)
  {
    PteFields(f, 6);
    forall s | SlotOk(spaces, s)
      ensures InSlot(WithTable(m, d, i, f), spaces, s) == if s == Tab(d, i) then f else InSlot(m, spaces, s)
    {
      WithTableDenotes(m, spaces, own, d, i, f, s.d, if s.User? then s.p else if s.Tab? then NPT * s.i else 0);
    }
  }

  lemma WithTableInv(m: Mem, spaces: set<nat>, own: map<nat, Slot>, free: seq<nat>, d: nat, i: nat, f: nat)
    requires Inv(m, spaces, own, free) && d in spaces && i < NPT && !Present(Pde(m, d, i)) && f in own && own[f].Other?
    ensures Inv(WithTable(m, d, i, f), spaces, own[f := Tab(d, i)], free)
  {
    var n, own2 := WithTable(m, d, i, f), own[f := Tab(d, i)];
    TableOwned(m, spaces, own, d, i);
    WithTableSlots(m, spaces, own, free, d, i, f);
    KeptFree(m, n, own, own2, free, f, d);
    assert forall x :: x in m.frames && x != f && x != d ==> n.frames[x] == m.frames[x];
    assert n.frames[f] == Table(Zeros());
    hide InSlot, WithTable;
    assert Claims(n, spaces, own2);
    StandsMoved(m, n, spaces, own, own2, d, f);
  }

  /** Frame f goes to an empty slot by a write to table t. */
  lemma StandsMoved(m: Mem, n: Mem, spaces: set<nat>, own: map<nat, Slot>, own2: map<nat, Slot>, t: nat, f: nat)
    requires Stands(m, spaces, own) && f in own && t in own && (own[t].Dir? || own[t].Tab?) && own[f].Other?
    requires f in own2 && own2 == own[f := own2[f]] && StandsAt(n, spaces, own2[f], f) && SlotOk(spaces, own2[f])
    requires InSlot(m, spaces, own2[f]) == -1
    requires t in n.frames && n.frames[t].Table? && |n.frames[t].w| == NPT
    requires forall x :: x in m.frames && x != f && x != t ==> x in n.frames && n.frames[x] == m.frames[x]
    requires forall s :: SlotOk(spaces, s) && s != own2[f] ==> InSlot(n, spaces, s) == InSlot(m, spaces, s)
    ensures Stands(n, spaces, own2)
  {
    forall x | x in own2
      ensures x in n.frames && x != 0 && StandsAt(n, spaces, own2[x], x)
    {
      assert StandsAt(m, spaces, own[x], x);
      assert x != f ==> own2[x] == own[x] && own[x] != own2[f];
    }
  }

  /** Changes to owned frames leave the free list. */
  lemma KeptFree(m: Mem, n: Mem, own: map<nat, Slot>, own2: map<nat, Slot>, free: seq<nat>, f: nat, d: nat)
    requires Shared(m, own, free) && f in own && d in own && own2.Keys == own.Keys && n.head == m.head
    requires n.frames.Keys == m.frames.Keys
    requires forall x :: x in m.frames && x != f && x != d ==> n.frames[x] == m.frames[x]
    ensures Shared(n, own2, free)
  {
    ListIn(m.frames, m.head, free);
    ListKept(m.frames, n.frames, m.head, free);
  }

  /** The directory entry of page p. */
  function TabNo(p: nat): nat { p / NPT }

  /** The page tables directory d has. */
  ghost function Tabs(m: Mem, d: nat): set<nat> {
    set i | 0 <= i < NPT && Present(Pde(m, d, i))
  }

  /** The page tables k pages from a need. */
  ghost function TabsOf(a: nat, k: nat): set<nat> {
    set p: nat | a <= p < a + k :: TabNo(p)
  }

  /** How many page tables directory d has when it has those of pages [a, a + k) too. */
  ghost function TabCount(m: Mem, d: nat, a: nat, k: nat): nat { |Tabs(m, d) + TabsOf(a, k)| }

  lemma TabsOfNext(a: nat, k: nat)
    ensures TabsOf(a, 0) == {} && TabsOf(a, k + 1) == TabsOf(a, k) + {TabNo(a + k)}
  {
    var s, u := TabsOf(a, k + 1), TabsOf(a, k) + {TabNo(a + k)};
    forall t | t in s
      ensures t in u
    {
      var p: nat :| a <= p < a + (k + 1) && t == TabNo(p);
    }
  }

  lemma SameTabs(m: Mem, n: Mem, d: nat)
    requires TableAt(n, d) == TableAt(m, d)
    ensures Tabs(n, d) == Tabs(m, d)
  {
    assert forall i :: 0 <= i < NPT ==> Pde(n, d, i) == Pde(m, d, i);
  }

  /** A new page table moves one frame from the free list to the directory's tables. */
  lemma WithTableTabs(m: Mem, d: nat, i: nat, f: nat)
    requires i < NPT && f != d && !Present(Pde(m, d, i))
    ensures Tabs(WithTable(m, d, i, f), d) == Tabs(m, d) + {i} && i !in Tabs(m, d)
  {
    WithTableAt(m, d, i, f, d);
    PteFields(f, 6);
    var n := WithTable(m, d, i, f);
    forall j | 0 <= j < NPT
      ensures Present(Pde(n, d, j)) <==> j == i || Present(Pde(m, d, j))
    {
    }
  }

  lemma MoreThan(a: set<nat>, b: set<nat>, x: nat)
    requires a <= b && x in b && x !in a
    ensures |a| < |b|
  {
    SmallerSet(a + {x}, b);
  }

  lemma SmallerSet(a: set<nat>, b: set<nat>)
    requires a <= b
    ensures |a| <= |b|
  {
    assert b == a + (b - a);
  }

  // ------------------------------------------------------------ page entries

  /** The frame of the page table for page p. */
  function TableOf(m: Mem, d: nat, p: nat): nat
    requires p < PAGES
  {
    FrameOf(Pde(m, d, p / NPT))
  }

  /** The entry of page p, in an existing table, becomes w. */
  function WithPte(m: Mem, d: nat, p: nat, w: nat): Mem
    requires p < PAGES
  {
    SetWord(m, TableOf(m, d, p), p % NPT, w)
  }

  /** A write to the entry of one page changes what the tables denote at that page of that
      directory, and nowhere else. */
  lemma WithPteDenotes(m: Mem, spaces: set<nat>, own: map<nat, Slot>, d: nat, p: nat, w: nat, d2: nat, p2: nat)
    requires Claims(m, spaces, own) && d in spaces && p < PAGES && Present(Pde(m, d, p / NPT))
    requires d2 in spaces && p2 < PAGES
    ensures PteAt(WithPte(m, d, p, w), d2, p2) == if d2 == d && p2 == p then w else PteAt(m, d2, p2)
    ensures TableAt(WithPte(m, d, p, w), d2) == TableAt(m, d2)
  {
    TableOwned(m, spaces, own, d, p / NPT);
    TableOwned(m, spaces, own, d2, p2 / NPT);
    SetWordAt(m, TableOf(m, d, p), p % NPT, w, d2);
    SetWordAt(m, TableOf(m, d, p), p % NPT, w, TableOf(m, d2, p2));
    assert p == NPT * (p / NPT) + p % NPT && p2 == NPT * (p2 / NPT) + p2 % NPT;
    hide SetWord, Present, FrameOf;
  }

  /** A user page gets the frame in hand. */
  lemma PageInv(m: Mem, spaces: set<nat>, own: map<nat, Slot>, free: seq<nat>, d: nat, p: nat, f: nat, perm: nat)
    requires Inv(m, spaces, own, free) && d in spaces && p < UPAGES && Present(Pde(m, d, p / NPT))
    requires !Present(PteAt(m, d, p))
    requires f in own && own[f].Other? && f in m.frames && m.frames[f].Data? && perm < 4096
    ensures Inv(WithPte(m, d, p, Pte(f, perm)), spaces, own[f := User(d, p)], free)
  {
    var w := Pte(f, perm);
    var n, own2, t := WithPte(m, d, p, w), own[f := User(d, p)], TableOf(m, d, p);
    PteFields(f, perm);
    TableOwned(m, spaces, own, d, p / NPT);
    forall s | SlotOk(spaces, s)
      ensures InSlot(n, spaces, s) == if s == User(d, p) then f else InSlot(m, spaces, s)
    {
      WithPteDenotes(m, spaces, own, d, p, w, s.d, if s.User? then s.p else 0);
    }
    KeptFree(m, n, own, own2, free, f, t);
    assert forall x :: x in m.frames && x != t ==> n.frames[x] == m.frames[x];
    assert f != t;
    hide InSlot, WithPte;
    assert Claims(n, spaces, own2);
    StandsMoved(m, n, spaces, own, own2, t, f);
  }

  /** An entry above KERNBASE belongs to no slot. */
  lemma KernelInv(m: Mem, spaces: set<nat>, own: map<nat, Slot>, free: seq<nat>, d: nat, p: nat, w: nat)
    requires Inv(m, spaces, own, free) && d in spaces && UPAGES <= p < PAGES && Present(Pde(m, d, p / NPT))
    ensures Inv(WithPte(m, d, p, w), spaces, own, free)
  {
    var n, t := WithPte(m, d, p, w), TableOf(m, d, p);
    TableOwned(m, spaces, own, d, p / NPT);
    forall s | SlotOk(spaces, s)
      ensures InSlot(n, spaces, s) == InSlot(m, spaces, s)
    {
      WithPteDenotes(m, spaces, own, d, p, w, s.d, if s.User? then s.p else 0);
    }
    KeptFree(m, n, own, own, free, t, t);
    assert forall x :: x in m.frames && x != t ==> n.frames[x] == m.frames[x];
    hide InSlot, WithPte;
    assert Claims(n, spaces, own);
    StandsSame(m, n, spaces, own, own, t);
  }

  /** Nothing moves by a write to table t. */
  lemma StandsSame(m: Mem, n: Mem, spaces: set<nat>, own: map<nat, Slot>, own2: map<nat, Slot>, t: nat)
    requires Stands(m, spaces, own) && t in own && (own[t].Dir? || own[t].Tab?)
    requires t in n.frames && n.frames[t].Table? && |n.frames[t].w| == NPT
    requires forall x :: x in own2 ==>
      x in own && own2[x] == own[x] && (x != t ==> x in n.frames && n.frames[x] == m.frames[x])
    requires forall s, x :: SlotOk(spaces, s) && x in own2 && own2[x] == s ==>
      InSlot(n, spaces, s) == InSlot(m, spaces, s)
    ensures Stands(n, spaces, own2)
  {
    forall x | x in own2
      ensures x in n.frames && x != 0 && StandsAt(n, spaces, own2[x], x)
    {
      assert StandsAt(m, spaces, own[x], x);
    }
  }

  /** The frame of a user page. */
  lemma UserOwned(m: Mem, spaces: set<nat>, own: map<nat, Slot>, free: seq<nat>, d: nat, p: nat)
    requires Inv(m, spaces, own, free) && d in spaces && p < UPAGES && Present(PteAt(m, d, p))
    ensures var f := FrameOf(PteAt(m, d, p)); var t := TableOf(m, d, p);
      && f in own && own[f] == User(d, p) && f in m.frames && f != 0 && f != d && m.frames[f].Data?
      && t in own && own[t] == Tab(d, p / NPT) && t != f && Present(Pde(m, d, p / NPT))
      && t in m.frames && m.frames[t].Table? && |m.frames[t].w| == NPT
  {
    var f := FrameOf(PteAt(m, d, p));
    assert SlotOk(spaces, User(d, p)) && InSlot(m, spaces, User(d, p)) == f;
    assert own[f] == User(d, p) && StandsAt(m, spaces, own[f], f);
    TableOwned(m, spaces, own, d, p / NPT);
    assert StandsAt(m, spaces, own[TableOf(m, d, p)], TableOf(m, d, p));
  }

  /** deallocuvm frees user page p: its frame to the list, its entry to 0. */
  function Unpaged(m: Mem, d: nat, p: nat): Mem
    requires p < PAGES
  {
    WithPte(Pushed(m, FrameOf(PteAt(m, d, p))), d, p, 0)
  }

  lemma UnpagedIs(m: Mem, spaces: set<nat>, own: map<nat, Slot>, free: seq<nat>, d: nat, p: nat)
    requires Inv(m, spaces, own, free) && d in spaces && p < UPAGES && Present(PteAt(m, d, p))
    ensures Unpaged(m, d, p) == Pushed(WithPte(m, d, p, 0), FrameOf(PteAt(m, d, p)))
  {
    UserOwned(m, spaces, own, free, d, p);
    TableOwned(m, spaces, own, d, 0);
    var f := FrameOf(PteAt(m, d, p));
    PushedTable(m, f, d);
    PushedTable(m, f, TableOf(m, d, p));
  }

  lemma UnpagedDenotes(m: Mem, spaces: set<nat>, own: map<nat, Slot>, free: seq<nat>, d: nat, p: nat, d2: nat, p2: nat)
    requires Inv(m, spaces, own, free) && d in spaces && p < UPAGES && Present(PteAt(m, d, p)) && d2 in spaces
    requires p2 < PAGES
    ensures PteAt(Unpaged(m, d, p), d2, p2) == if d2 == d && p2 == p then 0 else PteAt(m, d2, p2)
    ensures TableAt(Unpaged(m, d, p), d2) == TableAt(m, d2)
  {
    UserOwned(m, spaces, own, free, d, p);
    UnpagedIs(m, spaces, own, free, d, p);
    var f, k := FrameOf(PteAt(m, d, p)), WithPte(m, d, p, 0);
    WithPteDenotes(m, spaces, own, d, p, 0, d2, p2);
    TableOwned(m, spaces, own, d2, p2 / NPT);
    PushedTable(k, f, d2);
    if Present(Pde(m, d2, p2 / NPT)) {
      PushedTable(k, f, TableOf(m, d2, p2));
    }
    hide Pushed, WithPte, Unpaged, Inv;
  }

  lemma UnpagedSlots(m: Mem, spaces: set<nat>, own: map<nat, Slot>, free: seq<nat>, d: nat, p: nat)
    requires Inv(m, spaces, own, free) && d in spaces && p < UPAGES && Present(PteAt(m, d, p))
    ensures forall s :: SlotOk(spaces, s) ==>
      InSlot(Unpaged(m, d, p), spaces, s) == if s == User(d, p) then -1 else InSlot(m, spaces, s)
  {
    var n := Unpaged(m, d, p);
    forall s | SlotOk(spaces, s)
      ensures InSlot(n, spaces, s) == if s == User(d, p) then -1 else InSlot(m, spaces, s)
    {
      UnpagedDenotes(m, spaces, own, free, d, p, s.d, if s.User? then s.p else 0);
    }
  }

  lemma UnpagedShared(m: Mem, spaces: set<nat>, own: map<nat, Slot>, free: seq<nat>, d: nat, p: nat)
    requires Inv(m, spaces, own, free) && d in spaces && p < UPAGES && Present(PteAt(m, d, p))
    ensures var f, t, n := FrameOf(PteAt(m, d, p)), TableOf(m, d, p), Unpaged(m, d, p);
      && t in own && own[t].Tab? && f in own && f != 0 && own[f] == User(d, p) && n.frames.Keys == m.frames.Keys
      && t in n.frames && n.frames[t].Table? && |n.frames[t].w| == NPT
      && (forall x :: x in m.frames && x != f && x != t ==> n.frames[x] == m.frames[x])
      && Shared(n, own - {f}, [f] + free)
  {
    UserOwned(m, spaces, own, free, d, p);
    UnpagedIs(m, spaces, own, free, d, p);
    var t, k := TableOf(m, d, p), WithPte(m, d, p, 0);
    hide PteAt, Stands, Claims;
    KeptFree(m, k, own, own, free, t, t);
    PushList(k, own, free, FrameOf(PteAt(m, d, p)));
  }

  lemma UnpageInv(m: Mem, spaces: set<nat>, own: map<nat, Slot>, free: seq<nat>, d: nat, p: nat)
    requires Inv(m, spaces, own, free) && d in spaces && p < UPAGES && Present(PteAt(m, d, p))
    ensures var f := FrameOf(PteAt(m, d, p)); Inv(Unpaged(m, d, p), spaces, own - {f}, [f] + free)
  {
    hide InSlot, WithPte, Pushed, Unpaged, PteAt, TableAt, Shared, Present;
    var f, t := FrameOf(PteAt(m, d, p)), TableOf(m, d, p);
    UnpagedShared(m, spaces, own, free, d, p);
    UnpagedSlots(m, spaces, own, free, d, p);
    assert Claims(Unpaged(m, d, p), spaces, own - {f});
    StandsSame(m, Unpaged(m, d, p), spaces, own, own - {f}, t);
  }

  lemma PushedTable(m: Mem, f: nat, x: nat)
    requires x != f
    ensures TableAt(Pushed(m, f), x) == TableAt(m, x)
  {
  }

  // ------------------------------------------------------------ frames in hand, new and old directories

  /** memset or memmove into a frame in hand. */
  lemma FillInv(m: Mem, spaces: set<nat>, own: map<nat, Slot>, free: seq<nat>, f: nat, b: seq<nat>)
    requires Inv(m, spaces, own, free) && f in own && own[f].Other?
    ensures f in m.frames && Inv(m.(frames := m.frames[f := Data(b)]), spaces, own, free)
  {
    var n := m.(frames := m.frames[f := Data(b)]);
    assert StandsAt(m, spaces, own[f], f);
    forall s | SlotOk(spaces, s)
      ensures InSlot(n, spaces, s) == InSlot(m, spaces, s)
    {
      TableOwned(m, spaces, own, s.d, if s.User? then s.p / NPT else 0);
      SameSlots(m, n, spaces, s);
    }
    KeptFree(m, n, own, own, free, f, f);
    hide InSlot;
    assert Claims(n, spaces, own);
    forall x | x in own
      ensures x in n.frames && x != 0 && StandsAt(n, spaces, own[x], x)
    {
      assert StandsAt(m, spaces, own[x], x);
    }
  }

  lemma NotSpace(m: Mem, spaces: set<nat>, own: map<nat, Slot>, f: nat)
    requires Claims(m, spaces, own) && f in own && own[f].Other?
    ensures f !in spaces
  {
    forall d | d in spaces
      ensures d != f
    {
      TableOwned(m, spaces, own, d, 0);
    }
  }

  /** setupkvm's new directory. */
  lemma SpaceInv(m: Mem, spaces: set<nat>, own: map<nat, Slot>, free: seq<nat>, f: nat)
    requires Inv(m, spaces, own, free) && f in own && own[f].Other?
    ensures f !in spaces && Inv(m.(frames := m.frames[f := Table(Zeros())]), spaces + {f}, own[f := Dir(f)], free)
    ensures forall d, p :: d in spaces && 0 <= p < PAGES ==>
      PteAt(m.(frames := m.frames[f := Table(Zeros())]), d, p) == PteAt(m, d, p)
  {
    var n, own2, all := m.(frames := m.frames[f := Table(Zeros())]), own[f := Dir(f)], spaces + {f};
    NotSpace(m, spaces, own, f);
    forall s | SlotOk(spaces, s)
      ensures InSlot(n, all, s) == InSlot(m, spaces, s)
    {
      TableOwned(m, spaces, own, s.d, if s.User? then s.p / NPT else 0);
      SameSlots(m, n, spaces, s);
    }
    forall d, p | d in spaces && 0 <= p < PAGES
      ensures PteAt(n, d, p) == PteAt(m, d, p)
    {
      TableOwned(m, spaces, own, d, p / NPT);
    }
    forall s | SlotOk(all, s) && !SlotOk(spaces, s)
      ensures s.d == f && InSlot(n, all, s) == if s == Dir(f) then f else -1
    {
      assert TableAt(n, f) == Zeros();
    }
    KeptFree(m, n, own, own2, free, f, f);
    hide InSlot, PteAt, TableAt;
    assert Claims(n, all, own2);
    forall x | x in own2
      ensures x in n.frames && x != 0 && StandsAt(n, all, own2[x], x)
    {
      assert StandsAt(m, spaces, own[x], x);
    }
  }

  /** The frames of a directory without user pages, taken in hand to be freed. */
  ghost function InHand(own: map<nat, Slot>, d: nat): (r: map<nat, Slot>)
    ensures r.Keys == own.Keys
  {
    map f | f in own :: if own[f] == Dir(d) || (own[f].Tab? && own[f].d == d) then Other else own[f]
  }

  lemma RetireInv(m: Mem, spaces: set<nat>, own: map<nat, Slot>, free: seq<nat>, d: nat)
    requires Inv(m, spaces, own, free) && d in spaces
    requires forall p :: 0 <= p < UPAGES ==> !Present(PteAt(m, d, p))
    ensures Inv(m, spaces - {d}, InHand(own, d), free)
  {
    var rest, own2 := spaces - {d}, InHand(own, d);
    forall s | SlotOk(rest, s)
      ensures SlotOk(spaces, s) && InSlot(m, rest, s) == InSlot(m, spaces, s)
    {
    }
    assert Claims(m, rest, own2);
    KeptFree2(m, own, own2, free);
    forall x | x in own2
      ensures x in m.frames && x != 0 && StandsAt(m, rest, own2[x], x)
    {
      assert StandsAt(m, spaces, own[x], x);
    }
  }

  lemma KeptFree2(m: Mem, own: map<nat, Slot>, own2: map<nat, Slot>, free: seq<nat>)
    requires Shared(m, own, free) && own2.Keys == own.Keys
    ensures Shared(m, own2, free)
  {
  }

  // ------------------------------------------------------------ deallocuvm's stride

  /** The loop of deallocuvm, from page a on, comes to page p: it goes on by one page where
      there is a page table, and by 1024 where there is none. */
  predicate Visits(m: Mem, d: nat, a: nat, p: nat)
    requires a < PAGES + NPT && p < PAGES
    decreases p - a
  {
    a <= p && (a == p || Visits(m, d, if Present(Pde(m, d, a / NPT)) then a + 1 else a + NPT, p))
  }

  /** No page table for any page from a's up to, but without, p's. */
  ghost predicate Bare(m: Mem, d: nat, i: nat, j: nat) {
    forall k :: i <= k < j && k < NPT ==> !Present(Pde(m, d, k))
  }

  /** A page with a page table is passed over exactly when the stride started in the
      middle of a missing table, at a higher place in it, and no table came between. */
  lemma {:induction false} PassesOver(m: Mem, d: nat, a: nat, p: nat)
    requires a <= p < PAGES && Present(Pde(m, d, p / NPT))
    ensures !Visits(m, d, a, p) <==> a / NPT < p / NPT && p % NPT < a % NPT && Bare(m, d, a / NPT, p / NPT)
    decreases p - a
  {
    var i, j := a / NPT, p / NPT;
    assert a == NPT * i + a % NPT && p == NPT * j + p % NPT;
    if a != p {
      if Present(Pde(m, d, i)) {
        PassesOver(m, d, a + 1, p);
        NextPage(a);
        assert i < j ==> !Bare(m, d, i, j);
      } else if a + NPT <= p {
        PassesOver(m, d, a + NPT, p);
        assert (a + NPT) / NPT == i + 1 && (a + NPT) % NPT == a % NPT;
        assert Bare(m, d, i, j) <==> Bare(m, d, i + 1, j);
        if i + 1 == j {
          Straight(m, d, a + NPT, p);
        }
      } else {
        assert j == i + 1;
      }
    }
  }

  lemma NextPage(a: nat)
    ensures (a + 1) / NPT == a / NPT || ((a + 1) / NPT == a / NPT + 1 && (a + 1) % NPT == 0)
    ensures (a + 1) / NPT == a / NPT ==> (a + 1) % NPT == a % NPT + 1
  {
  }

  /** Inside a table that is there, every page is visited. */
  lemma {:induction false} Straight(m: Mem, d: nat, a: nat, p: nat)
    requires a <= p < PAGES && a / NPT == p / NPT && Present(Pde(m, d, a / NPT))
    ensures Visits(m, d, a, p)
    decreases p - a
  {
    if a != p {
      Straight(m, d, a + 1, p);
    }
  }

  /** Where the stride goes from page a. */
  function After(m: Mem, d: nat, a: nat): nat
    requires a < PAGES
  {
    if Present(Pde(m, d, a / NPT)) then a + 1 else a + NPT
  }

  /** Past a visited page, the stride is that from the page after it. */
  lemma {:induction false} VisitsOn(m: Mem, d: nat, lo: nat, a: nat, p: nat)
    requires lo <= a < p < PAGES && Visits(m, d, lo, a)
    ensures Visits(m, d, lo, p) <==> Visits(m, d, After(m, d, a), p)
    decreases a - lo
  {
    if lo != a {
      VisitsOn(m, d, After(m, d, lo), a, p);
    }
  }

  // ------------------------------------------------------------ what deallocuvm has freed

  /** The slot's page was visited before page a. */
  predicate Passed(m: Mem, d: nat, lo: nat, a: nat, s: Slot) {
    s.User? && s.d == d && lo <= s.p < a && s.p < UPAGES && Visits(m, d, lo, s.p)
  }

  /** From m to n the visited pages of d in [lo, a) were freed, and nothing else changed. */
  ghost predicate Dropped(m: Mem, own: map<nat, Slot>, n: Mem, own2: map<nat, Slot>, spaces: set<nat>, d: nat, lo: nat,
          a: nat)
    requires lo < PAGES
  {
    && (forall d2 :: d2 in spaces ==> TableAt(n, d2) == TableAt(m, d2))
    && (forall d2, p2 :: d2 in spaces && 0 <= p2 < PAGES ==>
          PteAt(n, d2, p2) ==
            if Passed(m, d, lo, a, User(d2, p2)) && Present(PteAt(m, d, p2)) then 0 else PteAt(m, d2, p2))
    && (forall f :: f in own2 <==> f in own && !Passed(m, d, lo, a, own[f]))
    && (forall f :: f in own2 ==> own2[f] == own[f])
    && (forall f :: f in own2 && f in m.frames && m.frames[f].Data? ==> f in n.frames && n.frames[f] == m.frames[f])
  }

  lemma DroppedNone(m: Mem, own: map<nat, Slot>, spaces: set<nat>, d: nat, lo: nat)
    requires lo < PAGES
    ensures Dropped(m, own, m, own, spaces, d, lo, lo)
  {
  }

  /** Up to the next visited page, the visited pages are those before a, and a. */
  lemma PassedNext(m: Mem, d: nat, lo: nat, a: nat, b: nat, s: Slot)
    requires lo <= a < UPAGES && Visits(m, d, lo, a) && a < b <= After(m, d, a)
    ensures Passed(m, d, lo, b, s) <==> Passed(m, d, lo, a, s) || s == User(d, a)
  {
    if s.User? && s.d == d && a < s.p < b && s.p < UPAGES {
      VisitsOn(m, d, lo, a, s.p);
    }
  }

  /** A page that is not there is passed without a change. */
  lemma DroppedSkip(m: Mem, own: map<nat, Slot>, free: seq<nat>, n: Mem, own2: map<nat, Slot>, spaces: set<nat>,
          d: nat, lo: nat, a: nat, b: nat)
    requires Inv(m, spaces, own, free) && d in spaces && lo <= a < UPAGES && Visits(m, d, lo, a)
    requires a < b <= After(m, d, a) && !Present(PteAt(m, d, a))
    requires Dropped(m, own, n, own2, spaces, d, lo, a)
    ensures Dropped(m, own, n, own2, spaces, d, lo, b)
  {
    forall d2, p2 | d2 in spaces && 0 <= p2 < PAGES
      ensures PteAt(n, d2, p2) ==
        if Passed(m, d, lo, b, User(d2, p2)) && Present(PteAt(m, d, p2)) then 0 else PteAt(m, d2, p2)
    {
      PassedNext(m, d, lo, a, b, User(d2, p2));
    }
    forall f
      ensures f in own2 <==> f in own && !Passed(m, d, lo, b, own[f])
    {
      if f in own {
        PassedNext(m, d, lo, a, b, own[f]);
        assert StandsAt(m, spaces, own[f], f);
      }
    }
  }

  /** A page that is there is freed. */
  lemma DroppedPage(m: Mem, own: map<nat, Slot>, n: Mem, own2: map<nat, Slot>, free2: seq<nat>, spaces: set<nat>,
          d: nat, lo: nat, a: nat, b: nat)
    requires Inv(n, spaces, own2, free2) && d in spaces && lo <= a < UPAGES && Visits(m, d, lo, a)
    requires a < b <= After(m, d, a) && Present(PteAt(n, d, a))
    requires Dropped(m, own, n, own2, spaces, d, lo, a) && Present(PteAt(m, d, a))
    ensures Dropped(m, own, Unpaged(n, d, a), own2 - {FrameOf(PteAt(n, d, a))}, spaces, d, lo, b)
  {
    hide Inv, Unpaged, PteAt, TableAt, Passed, Visits, After, Present;
    var f := FrameOf(PteAt(n, d, a));
    var o, own3 := Unpaged(n, d, a), own2 - {f};
    UserOwned(n, spaces, own2, free2, d, a);
    UnpagedFrames(n, d, a);
    forall d2, p2 | d2 in spaces && 0 <= p2 < PAGES
      ensures PteAt(o, d2, p2) ==
        if Passed(m, d, lo, b, User(d2, p2)) && Present(PteAt(m, d, p2)) then 0 else PteAt(m, d2, p2)
    {
      PassedNext(m, d, lo, a, b, User(d2, p2));
      UnpagedDenotes(n, spaces, own2, free2, d, a, d2, p2);
    }
    forall d2 | d2 in spaces
      ensures TableAt(o, d2) == TableAt(m, d2)
    {
      UnpagedDenotes(n, spaces, own2, free2, d, a, d2, 0);
    }
    forall x
      ensures x in own3 <==> x in own && !Passed(m, d, lo, b, own[x])
    {
      OnePlace(n, spaces, own2, free2, d, a, x);
      if x in own { PassedNext(m, d, lo, a, b, own[x]); }
    }
  }

  lemma UnpagedFrames(m: Mem, d: nat, p: nat)
    requires p < PAGES && TableOf(m, d, p) != FrameOf(PteAt(m, d, p)) && d != FrameOf(PteAt(m, d, p))
    ensures forall x :: x in m.frames && x != FrameOf(PteAt(m, d, p)) && x != TableOf(m, d, p) ==>
      x in Unpaged(m, d, p).frames && Unpaged(m, d, p).frames[x] == m.frames[x]
  {
    PushedTable(m, FrameOf(PteAt(m, d, p)), d);
  }

  /** Only one frame is owned by a slot. */
  lemma OnePlace(m: Mem, spaces: set<nat>, own: map<nat, Slot>, free: seq<nat>, d: nat, p: nat, x: nat)
    requires Inv(m, spaces, own, free) && d in spaces && p < UPAGES && Present(PteAt(m, d, p))
    ensures x in own && own[x] == User(d, p) <==> x == FrameOf(PteAt(m, d, p))
  {
    UserOwned(m, spaces, own, free, d, p);
    if x in own && own[x] == User(d, p) {
      assert StandsAt(m, spaces, own[x], x);
    }
  }

  /** The user pages of d are exactly the first n. */
  ghost predicate Exactly(m: Mem, d: nat, n: nat) {
    forall p :: 0 <= p < UPAGES ==> (Present(PteAt(m, d, p)) <==> p < n)
  }

  /** With user pages [0, n), deallocuvm frees exactly the pages from lo up to hi, despite
      its stride. */
  lemma FreesAll(m: Mem, own: map<nat, Slot>, n: Mem, own2: map<nat, Slot>, spaces: set<nat>, d: nat, lo: nat, hi: nat,
          size: nat)
    requires d in spaces && lo <= hi <= UPAGES && Exactly(m, d, size) && Dropped(m, own, n, own2, spaces, d, lo, hi)
    ensures forall p :: 0 <= p < UPAGES ==> (Present(PteAt(n, d, p)) <==> p < size && !(lo <= p < hi))
    ensures size <= hi ==> Exactly(n, d, if lo < size then lo else size)
  {
    forall p | 0 <= p < UPAGES
      ensures Present(PteAt(n, d, p)) <==> p < size && !(lo <= p < hi)
    {
      if lo <= p < size {
        assert Present(PteAt(m, d, lo)) && Present(PteAt(m, d, p));
        PassesOver(m, d, lo, p);
      }
    }
  }

  /** From page 0 the stride passes over no page, whatever is mapped. */
  lemma FreesWhole(m: Mem, own: map<nat, Slot>, n: Mem, own2: map<nat, Slot>, spaces: set<nat>, d: nat)
    requires d in spaces && Dropped(m, own, n, own2, spaces, d, 0, UPAGES)
    ensures Exactly(n, d, 0)
  {
    forall p | 0 <= p < UPAGES
      ensures !Present(PteAt(n, d, p))
    {
      if Present(PteAt(m, d, p)) {
        PassesOver(m, d, 0, p);
      }
    }
  }

  // ------------------------------------------------------------ freevm's second half

  /** Giving back a frame in hand changes nothing the tables denote. */
  lemma PushDenotes(m: Mem, spaces: set<nat>, own: map<nat, Slot>, f: nat, d: nat, p: nat)
    requires Claims(m, spaces, own) && f in own && own[f] == Other && d in spaces && p < PAGES
    ensures PteAt(Pushed(m, f), d, p) == PteAt(m, d, p)
  {
    TableOwned(m, spaces, own, d, p / NPT);
    PushedTable(m, f, d);
    if Present(Pde(m, d, p / NPT)) {
      PushedTable(m, f, TableOf(m, d, p));
    }
    hide Pushed;
  }

  /** From m, the page tables of d below entry i are freed, its others and d itself in hand. */
  ghost predicate Shed(m: Mem, own: map<nat, Slot>, n: Mem, own2: map<nat, Slot>, rest: set<nat>, d: nat, i: nat) {
    && d in own2 && own2[d] == Other && d in m.frames && d in n.frames && n.frames[d] == m.frames[d]
    && (forall f :: f in own2 <==> f in own && !(own[f].Tab? && own[f].d == d && own[f].i < i))
    && (forall f :: f in own2 ==> own2[f] == InHand(own, d)[f])
    && (forall d2, p2 :: d2 in rest && 0 <= p2 < PAGES ==> PteAt(n, d2, p2) == PteAt(m, d2, p2))
    && (forall f :: f in own2 && f in m.frames && m.frames[f].Data? ==> f in n.frames && n.frames[f] == m.frames[f])
  }

  lemma ShedNone(m: Mem, spaces: set<nat>, own: map<nat, Slot>, free: seq<nat>, d: nat)
    requires Inv(m, spaces, own, free) && d in spaces
    ensures Shed(m, own, m, InHand(own, d), spaces - {d}, d, 0)
  {
    TableOwned(m, spaces, own, d, 0);
    assert StandsAt(m, spaces, own[d], d);
  }

  lemma ShedSame(m: Mem, own: map<nat, Slot>, n: Mem, own2: map<nat, Slot>, rest: set<nat>, d: nat, i: nat)
    requires Shed(m, own, n, own2, rest, d, i) && d in m.frames
    ensures TableAt(n, d) == TableAt(m, d)
  {
  }

  lemma ShedNext(m: Mem, spaces: set<nat>, own: map<nat, Slot>, free: seq<nat>, n: Mem, own2: map<nat, Slot>,
          free2: seq<nat>, d: nat, i: nat)
    requires Inv(m, spaces, own, free) && d in spaces && i < NPT && Inv(n, spaces - {d}, own2, free2)
    requires Shed(m, own, n, own2, spaces - {d}, d, i)
    ensures Present(Pde(m, d, i)) ==> var f := FrameOf(Pde(m, d, i));
      && f in own2 && own2[f] == Other && f in n.frames && f != 0
      && Shed(m, own, Pushed(n, f), own2 - {f}, spaces - {d}, d, i + 1)
    ensures !Present(Pde(m, d, i)) ==> Shed(m, own, n, own2, spaces - {d}, d, i + 1)
  {
    TableOwned(m, spaces, own, d, i);
    if Present(Pde(m, d, i)) {
      var f := FrameOf(Pde(m, d, i));
      assert f in own && own[f] == Tab(d, i);
      assert StandsAt(n, spaces - {d}, own2[f], f);
      forall d2, p2 | d2 in spaces - {d} && 0 <= p2 < PAGES
        ensures PteAt(Pushed(n, f), d2, p2) == PteAt(m, d2, p2)
      {
        PushDenotes(n, spaces - {d}, own2, f, d2, p2);
      }
      forall x | x in own && own[x] == Tab(d, i)
        ensures x == f
      {
        assert StandsAt(m, spaces, own[x], x);
      }
    } else {
      forall x | x in own
        ensures own[x] != Tab(d, i)
      {
        assert StandsAt(m, spaces, own[x], x);
      }
    }
  }
}
