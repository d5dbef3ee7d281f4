/** fs.c's block allocator, block lists and file contents, and file.c's filewrite, over
    the current contents of the blocks. A panic is the result `ok == false`. */
module Fs {
  import opened Common
  import opened FsImage
  import LogDisk

  const BPB := 4096
  /** ((LOGSIZE-1-1-2) / 2) * 512, with LOGSIZE 30. */
  const CHUNK := 6656

  ghost function FreeSet(m: Image): set<nat> {
    set b | 0 <= b < |m.blocks| && !Used(m.bits, b)
  }

  ghost function Free(m: Image): nat { |FreeSet(m)| }

  /** How many of the slots have no block. */
  ghost function Lacks(own: map<nat, Slot>, slots: set<Slot>): nat { |slots - own.Values| }

  function BlockNo(k: nat): nat { k / BSIZE }

  /** The slots that must have a block before entry bn of file i does. */
  ghost function Needs(i: nat, bn: nat): set<Slot> {
    if bn < NDIRECT then {Data(i, bn)} else {Indirect(i), Data(i, bn)}
  }

  /** The same for bytes [off, off + n). */
  ghost function Wanted(i: nat, off: nat, n: nat): set<Slot> {
    (set k | off <= k < off + n :: Data(i, BlockNo(k)))
    + if n > 0 && BlockNo(off + n - 1) >= NDIRECT then {Indirect(i)} else {}
  }

  /** The slots that stand in an indirect block, which bmap logs too when it fills one. */
  ghost function Leaves(slots: set<Slot>): set<Slot> {
    set s | s in slots && s.Data? && s.bn >= NDIRECT
  }

  /** The log_write calls that giving those of the slots without a block one each makes:
      balloc logs the bitmap block and the zeroed block. */
  ghost function Logged(own: map<nat, Slot>, slots: set<Slot>): nat {
    2 * Lacks(own, slots) + Lacks(own, Leaves(slots))
  }

  /** How many blocks of a file bytes [off, off + n) lie in. */
  function Touched(off: nat, n: nat): nat {
    if n == 0 then 0 else (off + n - 1) / BSIZE - off / BSIZE + 1
  }

  /** From m to n, exactly those of the slots that had none were given a block each. */
  ghost predicate Spent(m: Image, own: map<nat, Slot>, n: Image, own2: map<nat, Slot>, slots: set<Slot>) {
    own2.Values == own.Values + slots && Free(n) + Lacks(own, slots) == Free(m)
  }

  /** Every owner stays, and file i may gain blocks. */
  ghost predicate OnlyAdds(own: map<nat, Slot>, own2: map<nat, Slot>, i: nat) {
    && (forall b :: b in own ==> b in own2 && own2[b] == own[b])
    && (forall b :: b in own2 && b !in own ==> own2[b].ino == i)
  }

  /** The byte of the map that holds bit base + bi, as BBLOCK and bi/8 find it. */
  lemma BitPlace(base: nat, bi: nat)
    requires base % BPB == 0 && bi < BPB
    ensures BSIZE * (base / BPB) + bi / 8 == (base + bi) / 8 && bi % 8 == (base + bi) % 8
  {
    var q := base / BPB;
    assert base == 8 * (BSIZE * q);
    assert base + bi == 8 * (BSIZE * q + bi / 8) + bi % 8;
  }

  class Fs {
    var m: Image
    const first: nat
    ghost var own: map<nat, Slot>
    /** How many times log_write has been called. */
    ghost var writes: nat

    ghost predicate Valid()
      reads this
    {
      Inv(m, own, first)
    }

    constructor (m: Image, ghost own: map<nat, Slot>, first: nat)
      requires Inv(m, own, first)
      ensures Valid() && this.m == m && this.own == own && this.first == first
    {
      this.m := m;
      this.own := own;
      this.first := first;
      this.writes := 0;
    }

    /** The first free block, zeroed and marked; a panic exactly when there is none. */
    method Balloc() returns (b: nat, ok: bool)
      requires Shape(m)
      modifies this`m, this`writes
      ensures writes == old(writes) + if ok then 2 else 0
      ensures ok ==> b < |old(m).blocks| && !Used(old(m).bits, b) && m == Alloc(old(m), b)
      ensures ok ==> forall c :: 0 <= c < b ==> Used(old(m).bits, c)
      ensures !ok ==> m == old(m) && Free(m) == 0
    {
      var base := 0;
      while base < |m.blocks|
        invariant base % BPB == 0 && m == old(m) && writes == old(writes)
        invariant forall c :: 0 <= c < base && c < |m.blocks| ==> Used(m.bits, c)
      {
        var bi := 0;
        while bi < BPB && base + bi < |m.blocks|
          invariant 0 <= bi <= BPB && m == old(m) && writes == old(writes)
          invariant forall c :: 0 <= c < base + bi && c < |m.blocks| ==> Used(m.bits, c)
        {
          BitPlace(base, bi);
          if !Bit(m.bits[BSIZE * (base / BPB) + bi / 8], bi % 8) {
            b := base + bi;
            var at := BSIZE * (base / BPB) + bi / 8;
            m := m.(bits := m.bits[at := SetBit(m.bits[at], bi % 8)]);
            writes := writes + 1;
            m := m.(blocks := m.blocks[b := Zero()]);
            writes := writes + 1;
            return b, true;
          }
          bi := bi + 1;
        }
        base := base + BPB;
      }
      assert FreeSet(m) == {};
      return 0, false;
    }

    /** Clears the bit of b; a panic exactly when it is clear already. */
    method Bfree(b: nat) returns (ok: bool)
      requires b < |m.blocks| && |m.blocks| <= 8 * |m.bits|
      modifies this`m
      ensures ok <==> Used(old(m).bits, b)
      ensures m == if ok then old(m).(bits := Cleared(old(m).bits, b)) else old(m)
    {
      var bi := b % BPB;
      BitPlace(b - bi, bi);
      var at := BSIZE * (b / BPB) + bi / 8;
      if !Bit(m.bits[at], bi % 8) {
        return false;
      }
      m := m.(bits := m.bits[at := ClearBit(m.bits[at], bi % 8)]);
      return true;
    }

    /** `addrs[k] = balloc()`, for an empty direct entry or the empty indirect one. */
    method AllocAddr(i: nat, k: nat, ghost off: nat) returns (addr: nat, ok: bool)
      requires Valid() && i < |m.inodes| && k <= NDIRECT && m.inodes[i].addrs[k] == 0 && off <= MAXFILE * BSIZE
      modifies this`m, this`own, this`writes
      ensures !ok ==> m == old(m) && own == old(own)
      ensures ok <==> Free(old(m)) > 0
      ensures ok ==> Valid() && Wrote(old(m), m, i, off, []) && addr != 0 && m.inodes[i].addrs[k] == addr
      ensures ok ==> addr !in old(own) && own == old(own)[addr := if k == NDIRECT then Indirect(i) else Data(i, k)]
      ensures ok ==> Spent(old(m), old(own), m, own, {if k == NDIRECT then Indirect(i) else Data(i, k)})
      ensures ok ==> writes == old(writes) + Logged(old(own), {if k == NDIRECT then Indirect(i) else Data(i, k)})
    {
      hide Claims, Stands, BitsTell, NoHoles, Sizes, Wrote, Spent, Free, Logged;
      ghost var m0 := m;
      ghost var s := if k == NDIRECT then Indirect(i) else Data(i, k);
      addr, ok := Balloc();
      if !ok {
        return;
      }
      assert Vacant(m0, own, first, s, addr);
      GivenSpent(m0, own, first, s, addr);
      GivenLogged(m0, own, first, s, addr);
      GivenInv(m0, own, first, s, addr);
      GivenWrote(m0, own, first, s, addr, i, off);
      FreeBlock(m0, own, first, addr);
      m := m.(inodes := m.inodes[i := m.inodes[i].(addrs := m.inodes[i].addrs[k := addr])]);
      own := own[addr := s];
    }

    /** `a[bn] = balloc()` in the indirect block of file i. */
    method AllocLeaf(i: nat, bn: nat, ghost off: nat) returns (addr: nat, ok: bool)
      requires Valid() && i < |m.inodes| && m.inodes[i].addrs[NDIRECT] != 0
      requires NDIRECT <= bn < MAXFILE && At(m, i, bn) == 0 && off <= MAXFILE * BSIZE
      modifies this`m, this`own, this`writes
      ensures !ok ==> m == old(m) && own == old(own)
      ensures ok <==> Free(old(m)) > 0
      ensures ok ==> Valid() && Wrote(old(m), m, i, off, []) && addr != 0 && At(m, i, bn) == addr
      ensures ok ==> addr !in old(own) && own == old(own)[addr := Data(i, bn)]
      ensures ok ==> Spent(old(m), old(own), m, own, {Data(i, bn)})
      ensures ok ==> writes == old(writes) + Logged(old(own), {Data(i, bn)})
    {
      hide Claims, Stands, BitsTell, NoHoles, Sizes, Wrote, Spent, Free, Logged, Word, WithWord;
      ghost var m0 := m;
      ghost var s := Data(i, bn);
      var t := m.inodes[i].addrs[NDIRECT];
      addr, ok := Balloc();
      if !ok {
        return;
      }
      assert Vacant(m0, own, first, s, addr);
      GivenSpent(m0, own, first, s, addr);
      GivenLogged(m0, own, first, s, addr);
      GivenInv(m0, own, first, s, addr);
      GivenWrote(m0, own, first, s, addr, i, off);
      GivenSlot(m0, own, first, s, addr, s);
      FreeBlock(m0, own, first, addr);
      m := m.(blocks := m.blocks[t := WithWord(m.blocks[t], bn - NDIRECT, addr)]);
      writes := writes + 1;
      assert m == Given(m0, s, addr);
      own := own[addr := s];
    }

    /** The address of block bn of file i, allocated if there was none, with the indirect
        block if that is missing too. The files do not change, and no slot loses its block. A
        panic exactly when bn is out of range or there are fewer free blocks than missing. */
    method Bmap(i: nat, bn: nat, ghost off: nat) returns (addr: nat, ok: bool)
      requires Valid() && i < |m.inodes| && off <= MAXFILE * BSIZE
      modifies this`m, this`own, this`writes
      ensures ok <==> bn < MAXFILE && Lacks(old(own), Needs(i, bn)) <= Free(old(m))
      ensures ok ==> Valid() && bn < MAXFILE && Wrote(old(m), m, i, off, []) && addr != 0 && At(m, i, bn) == addr
      ensures bn < MAXFILE && At(old(m), i, bn) != 0 ==> ok && m == old(m) && own == old(own) && writes == old(writes)
      ensures ok ==> OnlyAdds(old(own), own, i) && Spent(old(m), old(own), m, own, Needs(i, bn))
      ensures ok ==> writes == old(writes) + Logged(old(own), Needs(i, bn))
    {
      hide Claims, Stands, BitsTell, NoHoles, Sizes, Spent, Free, FreeSet, Lacks, Logged, Wrote, Word;
      WroteNone(m, i, off);
      if bn < NDIRECT {
        TakenData(m, own, first, i, bn);
        addr := m.inodes[i].addrs[bn];
        if addr == 0 {
          addr, ok := AllocAddr(i, bn, off);
          return;
        }
        return addr, true;
      }
      if bn - NDIRECT < NINDIRECT {
        addr, ok := BmapIndirect(i, bn, off);
        return;
      }
      return 0, false;
    }

    /** bmap's second half. */
    method BmapIndirect(i: nat, bn: nat, ghost off: nat) returns (addr: nat, ok: bool)
      requires Valid() && i < |m.inodes| && off <= MAXFILE * BSIZE && NDIRECT <= bn < MAXFILE
      modifies this`m, this`own, this`writes
      ensures ok <==> Lacks(old(own), Needs(i, bn)) <= Free(old(m))
      ensures ok ==> Valid() && Wrote(old(m), m, i, off, []) && addr != 0 && At(m, i, bn) == addr
      ensures At(old(m), i, bn) != 0 ==> ok && m == old(m) && own == old(own) && writes == old(writes)
      ensures ok ==> OnlyAdds(old(own), own, i) && Spent(old(m), old(own), m, own, Needs(i, bn))
      ensures ok ==> writes == old(writes) + Logged(old(own), Needs(i, bn))
    {
      hide Claims, Stands, BitsTell, NoHoles, Sizes, Spent, Free, FreeSet, Lacks, Logged, Needs, Wrote, Word;
      ghost var m0, own0 := m, own;
      WroteNone(m, i, off);
      OnlyAddsNone(own, i);
      ghost var one, two := Indirect(i), Data(i, bn);
      NeedsBoth(i, bn);
      TakenIndirect(m, own, first, i);
      addr := m.inodes[i].addrs[NDIRECT];
      if addr == 0 {
        addr, ok := AllocAddr(i, NDIRECT, off);
        if !ok {
          SpentNone(m, own, i, off);
          SpentShort(m, own, m, own, {}, {one}, {one} + {two});
          return;
        }
      }
      ghost var m1, own1 := m, own;
      WroteFrame(m0, m, i, off, []);
      var a := m.blocks[addr];
      addr := Word(a, bn - NDIRECT);
      TakenData(m, own, first, i, bn);
      if addr == 0 {
        addr, ok := AllocLeaf(i, bn, off);
        if !ok {
          SpentShort(m0, own0, m1, own1, {one}, {two}, {one} + {two});
          return;
        }
        WroteTwo(m0, m1, m, i, off, [], []);
        ghost var none: seq<Byte> := [];
        assert none + none == none;
      }
      SpentTwo(m0, own0, m1, own1, m, own, {one}, {two});
      LoggedTwo(m0, own0, m1, own1, {one}, {two});
      SpentEnough(m0, own0, m, own, {one} + {two});
      return addr, true;
    }

    /** itrunc's first loop: the direct blocks. */
    method FreeDirect(i: nat) returns (ok: bool)
      requires Valid() && i < |m.inodes|
      modifies this`m
      ensures ok && Partly(old(m), m, i, NDIRECT) && m.inodes[i].size == old(m).inodes[i].size
    {
      ghost var m0 := m;
      hide Claims, Stands, BitsTell, NoHoles, Sizes;
      PartlyNone(m, own, first, i);
      ok := true;
      var k := 0;
      while k < NDIRECT
        invariant 0 <= k <= NDIRECT && Partly(m0, m, i, k) && ok && m.inodes[i].size == m0.inodes[i].size
      {
        var a := m.inodes[i].addrs[k];
        PartlyNext(m0, own, first, m, i, k);
        if a != 0 {
          ok := Bfree(a);
          m := m.(inodes := m.inodes[i := m.inodes[i].(addrs := m.inodes[i].addrs[k := 0])]);
        }
        k := k + 1;
      }
    }

    /** itrunc's second loop: the blocks listed in the indirect block a. */
    method FreeLeaves(i: nat, a: Block, ghost m0: Image) returns (ok: bool)
      requires Inv(m0, own, first) && i < |m0.inodes| && Partly(m0, m, i, NDIRECT)
      requires m0.inodes[i].addrs[NDIRECT] != 0 && a == m0.blocks[m0.inodes[i].addrs[NDIRECT]]
      modifies this`m
      ensures ok && Partly(m0, m, i, MAXFILE)
    {
      hide Claims, Stands, BitsTell, NoHoles, Sizes;
      ok := true;
      var j := 0;
      while j < NINDIRECT
        invariant 0 <= j <= NINDIRECT && Partly(m0, m, i, NDIRECT + j) && ok
      {
        PartlyNext(m0, own, first, m, i, NDIRECT + j);
        if Word(a, j) != 0 {
          ok := Bfree(Word(a, j));
        }
        j := j + 1;
      }
    }

    /** itrunc: exactly the blocks file i owned are freed, no block is freed twice, and
        the other files do not change. */
    method Itrunc(i: nat) returns (ok: bool)
      requires Valid() && i < |m.inodes|
      modifies this`m, this`own, this`writes
      ensures ok && Valid() && Freed(old(m), m.bits, old(own), i) && own == Without(old(own), i)
      ensures |m.inodes| == |old(m).inodes| && Contents(m, i) == []
      ensures forall j :: 0 <= j < |m.inodes| && j != i ==> Contents(m, j) == Contents(old(m), j)
    {
      ghost var m0 := m;
      hide Claims, Stands, BitsTell, NoHoles, Sizes;
      ok := FreeDirect(i);
      var t := m.inodes[i].addrs[NDIRECT];
      if t != 0 {
        ok := FreeLeaves(i, m.blocks[t], m0);
        PartlyAll(m0, own, first, m, i);
        ok := Bfree(t);
        m := m.(inodes := m.inodes[i := m.inodes[i].(addrs := m.inodes[i].addrs[NDIRECT := 0])]);
      } else {
        PartlyDirect(m0, own, first, m, i);
      }
      m := m.(inodes := m.inodes[i := m.inodes[i].(size := 0)]);
      assert m.inodes[i].addrs == NoAddrs();
      TruncInv(m0, m.bits, own, first, i);
      own := Without(own, i);
      assert m == Image(m.bits, m0.blocks, m0.inodes[i := Inode(NoAddrs(), 0)]);
      hide Partly, Freed, Contents;
    }

    /** One turn of readi's loop: the bytes of a chunk that lies in one block. */
    method ReadChunk(i: nat, o: nat, k: nat) returns (bs: seq<Byte>, ok: bool)
      requires Valid() && i < |m.inodes| && 0 < k && o + k <= m.inodes[i].size && o % BSIZE + k <= BSIZE
      modifies this`m, this`own, this`writes
      ensures ok && m == old(m) && own == old(own) && writes == old(writes) && bs == Contents(m, i)[o..o + k]
    {
      assert BSIZE * (o / BSIZE) <= o;
      assert At(m, i, o / BSIZE) != 0;
      DataBlock(m, own, first, i, o / BSIZE);
      ChunkRead(m, i, o, k);
      hide Claims, Stands, BitsTell, NoHoles, Sizes;
      var addr;
      addr, ok := Bmap(i, o / BSIZE, 0);
      bs := m.blocks[addr][o % BSIZE..o % BSIZE + k];
    }

    /** readi: the bytes from off on, up to n of them and to the end of the file. */
    method Readi(i: nat, off: nat, n: nat) returns (dst: seq<Byte>, r: int, ok: bool)
      requires Valid() && i < |m.inodes| && off < WORDS && n < WORDS
      modifies this`m, this`own, this`writes
      ensures ok && m == old(m) && own == old(own) && writes == old(writes)
      ensures r == -1 <==> off > m.inodes[i].size || off + n >= WORDS
      ensures r != -1 ==> r == Min(n, m.inodes[i].size - off) && dst == Contents(m, i)[off..off + r]
    {
      ok := true;
      if off > m.inodes[i].size || (off + n) % WORDS < off {
        return [], -1, true;
      }
      var n1 := if off + n > m.inodes[i].size then m.inodes[i].size - off else n;
      ghost var file := Contents(m, i);
      var tot, o := 0, off;
      dst := [];
      hide Claims, Stands, BitsTell, NoHoles, At;
      while tot < n1
        invariant 0 <= tot <= n1 && o == off + tot && ok
        invariant m == old(m) && own == old(own) && writes == old(writes)
        invariant dst == file[off..o]
        decreases n1 - tot
      {
        var k := Min(n1 - tot, BSIZE - o % BSIZE);
        var bs;
        bs, ok := ReadChunk(i, o, k);
        dst := dst + bs;
        assert file[off..o] + file[o..o + k] == file[off..o + k];
        tot, o := tot + k, o + k;
      }
      return dst, n1, true;
    }

    /** One turn of writei's loop: a chunk that lies in one block. */
    method WriteChunk(i: nat, o: nat, bs: seq<Byte>) returns (ok: bool)
      requires Valid() && i < |m.inodes| && 0 < |bs| && o + |bs| <= MAXFILE * BSIZE && o % BSIZE + |bs| <= BSIZE
      modifies this`m, this`own, this`writes
      ensures ok <==> Lacks(old(own), Needs(i, o / BSIZE)) <= Free(old(m))
      ensures ok ==> Valid() && Wrote(old(m), m, i, o, bs) && OnlyAdds(old(own), own, i)
      ensures ok ==> Spent(old(m), old(own), m, own, Needs(i, o / BSIZE))
      ensures ok ==> writes == old(writes) + Logged(old(own), Needs(i, o / BSIZE)) + 1
    {
      hide Claims, Stands, BitsTell, NoHoles, Sizes, Needs, Free, Lacks, Logged, Spent, Wrote;
      ghost var m0, own0 := m, own;
      var addr;
      addr, ok := Bmap(i, o / BSIZE, o);
      if !ok {
        return false;
      }
      ghost var m1 := m;
      WroteFrame(m0, m1, i, o, []);
      PatchedWrote(m, own, first, i, o, bs);
      DataBlock(m, own, first, i, o / BSIZE);
      PatchedInv(m, own, first, addr, o % BSIZE, bs);
      m := m.(blocks := m.blocks[addr := Spliced(m.blocks[addr], o % BSIZE, bs)]);
      writes := writes + 1;
      SpentResized(m0, own0, m1, m, own, Needs(i, o / BSIZE));
      WroteTwo(m0, m1, m, i, o, [], bs);
      assert [] + bs == bs;
    }

    /** writei's loop. */
    method WriteBlocks(i: nat, src: seq<Byte>, off: nat) returns (ok: bool)
      requires Valid() && i < |m.inodes| && off + |src| <= MAXFILE * BSIZE
      modifies this`m, this`own, this`writes
      ensures ok <==> Lacks(old(own), Wanted(i, off, |src|)) <= Free(old(m))
      ensures ok ==> Valid() && Wrote(old(m), m, i, off, src) && SameFrame(old(m), m)
      ensures ok ==> OnlyAdds(old(own), own, i) && Spent(old(m), old(own), m, own, Wanted(i, off, |src|))
      ensures ok ==> writes == old(writes) + Logged(old(own), Wanted(i, off, |src|)) + Touched(off, |src|)
    {
      hide Claims, Stands, BitsTell, NoHoles, Sizes, Wrote, OnlyAdds, Spent, Free, FreeSet, Lacks, Logged, Touched,
        Needs, Wanted;
      ghost var m0, own0 := m, own;
      WroteNone(m, i, off);
      OnlyAddsNone(own, i);
      SpentNone(m, own, i, off);
      LoggedNone(own, off);
      var n := |src|;
      var tot, o := 0, off;
      while tot < n
        invariant 0 <= tot <= n && o == off + tot
        invariant Valid() && Wrote(m0, m, i, off, src[..tot]) && OnlyAdds(own0, own, i) && SameFrame(m0, m)
        invariant Spent(m0, own0, m, own, Wanted(i, off, tot))
        invariant writes == old(writes) + Logged(own0, Wanted(i, off, tot)) + Touched(off, tot)
        invariant tot < n ==> tot == 0 || (off + tot) % BSIZE == 0
        decreases n - tot
      {
        ghost var m1, own1 := m, own;
        var k := Min(n - tot, BSIZE - o % BSIZE);
        WantedNext(i, off, tot, k, n);
        ok := WriteChunk(i, o, src[tot..tot + k]);
        if !ok {
          SpentShort(m0, own0, m1, own1, Wanted(i, off, tot), Needs(i, o / BSIZE), Wanted(i, off, n));
          return false;
        }
        OnlyAddsTwo(own0, own1, own, i);
        SpentTwo(m0, own0, m1, own1, m, own, Wanted(i, off, tot), Needs(i, o / BSIZE));
        LoggedTwo(m0, own0, m1, own1, Wanted(i, off, tot), Needs(i, o / BSIZE));
        TouchedNext(off, tot, k);
        WroteFrame(m1, m, i, o, src[tot..tot + k]);
        WroteTwo(m0, m1, m, i, off, src[..tot], src[tot..tot + k]);
        assert src[..tot] + src[tot..tot + k] == src[..tot + k];
        tot, o := tot + k, o + k;
      }
      assert src[..tot] == src;
      SpentEnough(m0, own0, m, own, Wanted(i, off, n));
      return true;
    }

    /** writei: within its bounds, file i has src at off and keeps its other bytes, and no other
        file changes. A panic exactly when there are fewer free blocks than the bytes need
        that have none yet. */
    method Writei(i: nat, src: seq<Byte>, off: nat) returns (r: int, ok: bool)
      requires Valid() && i < |m.inodes| && off < WORDS && |src| < WORDS
      modifies this`m, this`own, this`writes
      ensures ok <==>
        OutOfBounds(old(m), i, off, |src|) || Lacks(old(own), Wanted(i, off, |src|)) <= Free(old(m))
      ensures ok ==> Valid() && |m.inodes| == |old(m).inodes| && OnlyAdds(old(own), own, i)
      ensures ok ==> (r == -1 <==> OutOfBounds(old(m), i, off, |src|))
      ensures ok && r == -1 ==> m == old(m) && own == old(own)
      ensures ok && r != -1 ==> r == |src| && Contents(m, i) == Overwritten(Contents(old(m), i), off, src)
      ensures ok && r != -1 ==> Spent(old(m), old(own), m, own, Wanted(i, off, |src|))
      ensures ok ==> writes == old(writes) + if r == -1 then 0 else Logs(old(m), old(own), i, off, |src|)
      ensures ok ==> forall j :: 0 <= j < |m.inodes| && j != i ==> Contents(m, j) == Contents(old(m), j)
    {
      hide Claims, Stands, BitsTell, NoHoles, Wrote, Contents, Overwritten, OnlyAdds, Spent, Free, FreeSet, Lacks,
        Logged, Touched, Wanted;
      var n := |src|;
      OnlyAddsNone(own, i);
      if off > m.inodes[i].size || (off + n) % WORDS < off {
        return -1, true;
      }
      if off + n > MAXFILE * BSIZE {
        return -1, true;
      }
      ghost var m0, own0 := m, own;
      ok := WriteBlocks(i, src, off);
      if !ok {
        return 0, false;
      }
      WroteContents(m0, m, own0, own, first, i, off, src);
      ghost var m2 := m;
      if n > 0 && off + n > m.inodes[i].size {
        m := m.(inodes := m.inodes[i := m.inodes[i].(size := off + n)]);
        writes := writes + 1;
      } else {
        assert m.inodes[i := m.inodes[i].(size := m.inodes[i].size)] == m.inodes;
      }
      SpentResized(m0, own0, m2, m, own, Wanted(i, off, n));
      return n, true;
    }

    /** filewrite on an inode: chunks of at most CHUNK bytes, each its own writei at f->off,
        which moves on by what was written. The `done` bytes that were written are there as
        if by one write: all n if the file can hold them, else the whole chunks that it can
        hold. A panic exactly when there are fewer free blocks than those bytes need. */
    method Filewrite(i: nat, writable: bool, addr: seq<Byte>, n: int, off: nat)
      returns (r: int, done: nat, pos: nat, ok: bool)
      requires Valid() && i < |m.inodes| && off < WORDS && n <= |addr| < WORDS
      modifies this`m, this`own, this`writes
      ensures ok <==> Lacks(old(own), Wanted(i, off, Reach(old(m), i, writable, off, n))) <= Free(old(m))
      ensures ok ==> Valid() && |m.inodes| == |old(m).inodes| && OnlyAdds(old(own), own, i)
      ensures ok ==>
        done == Reach(old(m), i, writable, off, n) && pos == off + done && r == if writable && done == n then n else -1
      ensures ok && off <= old(m).inodes[i].size ==> done <= |addr|
      ensures ok && off <= old(m).inodes[i].size ==>
        Contents(m, i) == Overwritten(Contents(old(m), i), off, addr[..done])
      ensures ok && off > old(m).inodes[i].size ==> m == old(m)
      ensures ok ==> forall j :: 0 <= j < |m.inodes| && j != i ==> Contents(m, j) == Contents(old(m), j)
    {
      hide Inv, Contents, Overwritten, Shape, OnlyAdds, SoFar, Spent, Wanted, Free, Lacks, Reach;
      ghost var m0, own0 := m, own;
      Shaped(m, own, first, i);
      OnlyAddsNone(own, i);
      done, pos := 0, off;
      SoFarNone(m, i, off);
      SpentNone(m, own, i, off);
      assert addr[..0] == [];
      ok := true;
      ReachNone(m, i, writable, off, n);
      if !writable {
        OverwrittenNone(Contents(m, i), Min(off, m.inodes[i].size));
        return -1, done, pos, true;
      }
      while done < n
        invariant 0 <= done <= |addr| && (done <= n || done == 0) && ok && Valid() && Shape(m) && Sizes(m)
        invariant |m.inodes| == |m0.inodes| && pos == off + done
        invariant OnlyAdds(own0, own, i) && Spent(m0, own0, m, own, Wanted(i, off, done))
        invariant SoFar(m0, m, i, off, addr[..done])
        invariant forall j :: 0 <= j < |m.inodes| && j != i ==> Contents(m, j) == Contents(m0, j)
        invariant (done < n ==> done % CHUNK == 0) && done <= Reach(m0, i, writable, off, n)
        decreases n - done
      {
        var n1 := if n - done > CHUNK then CHUNK else n - done;
        var k;
        ghost var m1, own1 := m, own;
        SoFarLength(m0, m, i, off, addr[..done]);
        ReachNext(m0, m, i, off, n, done, n1);
        k, ok := Writei(i, addr[done..done + n1], pos);
        if !ok {
          WantedPlus(i, off, done, n1);
          WantedMore(i, off, done + n1, Reach(m0, i, writable, off, n));
          SpentShort(m0, own0, m1, own1, Wanted(i, off, done), Wanted(i, pos, n1),
            Wanted(i, off, Reach(m0, i, writable, off, n)));
          return -1, done, pos, false;
        }
        Shaped(m, own, first, i);
        OnlyAddsTwo(own0, own1, own, i);
        if k < 0 {
          break;
        }
        WantedPlus(i, off, done, n1);
        SpentTwo(m0, own0, m1, own1, m, own, Wanted(i, off, done), Wanted(i, pos, n1));
        SoFarTwo(m0, m1, m, i, off, addr[..done], addr[done..done + n1]);
        assert addr[..done] + addr[done..done + n1] == addr[..done + n1];
        pos := pos + k;
        done := done + n1;
      }
      SoFarLength(m0, m, i, off, addr[..done]);
      SpentEnough(m0, own0, m, own, Wanted(i, off, done));
      return if done == n then n else -1, done, pos, true;
    }
  }

  // ------------------------------------------------------------ how many blocks a call takes

  /** writei refuses the call. */
  ghost predicate OutOfBounds(m: Image, i: nat, off: nat, n: nat)
    requires i < |m.inodes|
  {
    off > m.inodes[i].size || off + n >= WORDS || off + n > MAXFILE * BSIZE
  }

  /** How many log_write calls a writei that is not refused makes: one for each block it writes to,
      those of the allocations, and iupdate's if the file grows. */
  ghost function Logs(m: Image, own: map<nat, Slot>, i: nat, off: nat, n: nat): nat
    requires i < |m.inodes|
  {
    Logged(own, Wanted(i, off, n)) + Touched(off, n) + if n > 0 && off + n > m.inodes[i].size then 1 else 0
  }

  /** How much of n bytes filewrite gets into the file. */
  ghost function Reach(m: Image, i: nat, writable: bool, off: nat, n: int): nat
    requires i < |m.inodes|
  {
    if !writable || n < 0 || off > m.inodes[i].size || off > MAXFILE * BSIZE then 0
    else if off + n <= MAXFILE * BSIZE then n
    else CHUNK * ((MAXFILE * BSIZE - off) / CHUNK)
  }

  lemma ReachNone(m: Image, i: nat, writable: bool, off: nat, n: int)
    requires i < |m.inodes|
    ensures !writable || n <= 0 || off > m.inodes[i].size ==> Reach(m, i, writable, off, n) == 0
    ensures Reach(m, i, writable, off, n) <= if n < 0 then 0 else n
  {
  }

  /** The next chunk is the last that fits, or one that does, or the first that does not. */
  lemma ReachNext(m: Image, m1: Image, i: nat, off: nat, n: int, done: nat, n1: nat)
    requires i < |m.inodes| && i < |m1.inodes| && Sizes(m) && done < n < WORDS && done % CHUNK == 0
    requires done <= Reach(m, i, true, off, n)
    requires n1 == if n - done > CHUNK then CHUNK else n - done
    requires if off <= m.inodes[i].size then off + done <= m1.inodes[i].size else done == 0 && m1 == m
    ensures OutOfBounds(m1, i, off + done, n1) ==> done == Reach(m, i, true, off, n)
    ensures !OutOfBounds(m1, i, off + done, n1) ==> done + n1 <= Reach(m, i, true, off, n)
    ensures !OutOfBounds(m1, i, off + done, n1) ==> (done + n1 < n ==> (done + n1) % CHUNK == 0)
  {
    var top := MAXFILE * BSIZE - off;
    assert done == CHUNK * (done / CHUNK);
    if off <= m.inodes[i].size && off + n > MAXFILE * BSIZE {
      assert top == CHUNK * (top / CHUNK) + top % CHUNK;
    }
  }

  lemma SlotTaken(m: Image, own: map<nat, Slot>, first: nat, s: Slot)
    requires Inv(m, own, first) && SlotOk(m, s)
    ensures s in own.Values <==> InSlot(m, s) != 0
  {
    if s in own.Values {
      var b :| b in own && own[b] == s;
    }
    if InSlot(m, s) != 0 {
      assert own[InSlot(m, s)] == s;
    }
  }

  lemma GivenSpent(m: Image, own: map<nat, Slot>, first: nat, s: Slot, b: nat)
    requires Vacant(m, own, first, s, b)
    ensures Spent(m, own, Given(m, s, b), own[b := s], {s}) && Free(m) > 0
  {
    FreeBlock(m, own, first, b);
    SlotTaken(m, own, first, s);
    var n := Given(m, s, b);
    assert n.bits == Marked(m.bits, b) && |n.blocks| == |m.blocks|;
    forall c: nat
      ensures c in FreeSet(n) <==> c in FreeSet(m) - {b}
    {
      BitChanges(m.bits, b, c);
    }
    assert FreeSet(n) == FreeSet(m) - {b} && b in FreeSet(m);
    assert {s} - own.Values == {s};
    NewOwner(own, b, s);
  }

  lemma NewOwner(own: map<nat, Slot>, b: nat, s: Slot)
    requires b !in own
    ensures own[b := s].Values == own.Values + {s}
  {
    var x := own[b := s];
    assert x[b] == s;
    forall t | t in own.Values
      ensures t in x.Values
    {
      var c :| c in own && own[c] == t;
      assert x[c] == t;
    }
  }

  lemma NeedsOne(m: Image, own: map<nat, Slot>, s: Slot)
    ensures s in own.Values ==> Spent(m, own, m, own, {s})
    ensures Lacks(own, {s}) == if s in own.Values then 0 else 1
  {
    assert s in own.Values ==> own.Values + {s} == own.Values && {s} - own.Values == {};
    assert s !in own.Values ==> {s} - own.Values == {s};
  }

  lemma NeedsBoth(i: nat, bn: nat)
    requires bn >= NDIRECT
    ensures Needs(i, bn) == {Indirect(i)} + {Data(i, bn)}
  {
  }

  lemma LoggedNone(own: map<nat, Slot>, off: nat)
    ensures Logged(own, {}) == 0 && Touched(off, 0) == 0
  {
    assert Leaves({}) == {} && {} - own.Values == {};
  }

  lemma LoggedOne(own: map<nat, Slot>, s: Slot)
    ensures s in own.Values ==> Logged(own, {s}) == 0
    ensures s !in own.Values ==> Logged(own, {s}) == if s.Data? && s.bn >= NDIRECT then 3 else 2
  {
    LoggedNone(own, 0);
    NeedsOne(Image([], [], []), own, s);
    assert Leaves({s}) == if s.Data? && s.bn >= NDIRECT then {s} else {};
  }

  lemma LoggedTwo(a: Image, oa: map<nat, Slot>, b: Image, ob: map<nat, Slot>, s: set<Slot>, t: set<Slot>)
    requires Spent(a, oa, b, ob, s)
    ensures Logged(oa, s + t) == Logged(oa, s) + Logged(ob, t)
  {
    hide Free, Lacks, Leaves;
    LacksTwo(oa, ob, s, t);
    LacksLeaves(oa, ob, s, t);
  }

  lemma LacksLeaves(oa: map<nat, Slot>, ob: map<nat, Slot>, s: set<Slot>, t: set<Slot>)
    requires ob.Values == oa.Values + s
    ensures Lacks(oa, Leaves(s + t)) == Lacks(oa, Leaves(s)) + Lacks(ob, Leaves(t))
  {
    hide Leaves;
    LeavesTwo(s, t, oa.Values);
    Parts(Leaves(s), Leaves(t), oa.Values);
  }

  lemma LeavesTwo(s: set<Slot>, t: set<Slot>, v: set<Slot>)
    ensures Leaves(s + t) == Leaves(s) + Leaves(t)
    ensures Leaves(t) - (v + s) == Leaves(t) - (v + Leaves(s))
  {
  }

  lemma GivenLogged(m: Image, own: map<nat, Slot>, first: nat, s: Slot, b: nat)
    requires Vacant(m, own, first, s, b)
    ensures Logged(own, {s}) == if s.Data? && s.bn >= NDIRECT then 3 else 2
  {
    hide Logged;
    SlotTaken(m, own, first, s);
    LoggedOne(own, s);
  }

  /** writei's loop goes from one block to the next. */
  lemma TouchedNext(off: nat, tot: nat, k: nat)
    requires 0 < k && (off + tot) % BSIZE + k <= BSIZE && (tot == 0 || (off + tot) % BSIZE == 0)
    ensures Touched(off, tot + k) == Touched(off, tot) + 1
  {
    var o := off + tot;
    assert o + k - 1 == BSIZE * (o / BSIZE) + (o % BSIZE + k - 1);
    assert (o + k - 1) / BSIZE == o / BSIZE;
    if tot > 0 {
      assert o - 1 == BSIZE * (o / BSIZE - 1) + (BSIZE - 1);
    }
  }

  /** The blocks of file i that bytes [off, off + n) lie in. */
  ghost function Written(m: Image, i: nat, from: nat, k: nat): set<nat>
    requires Shape(m) && i < |m.inodes| && from + k <= MAXFILE
  {
    set bn | from <= bn < from + k :: At(m, i, bn)
  }

  lemma {:induction false} WrittenCount(m: Image, own: map<nat, Slot>, first: nat, i: nat, from: nat, k: nat)
    requires Inv(m, own, first) && i < |m.inodes| && from + k <= MAXFILE
    requires forall bn :: from <= bn < from + k ==> At(m, i, bn) != 0
    ensures |Written(m, i, from, k)| == k
  {
    hide Claims, Stands, BitsTell, NoHoles, Sizes, Shape, At;
    if k == 0 {
      assert Written(m, i, from, 0) == {};
    } else {
      WrittenCount(m, own, first, i, from, k - 1);
      var last := from + k - 1;
      DataBlock(m, own, first, i, last);
      forall bn | from <= bn < last
        ensures At(m, i, bn) != At(m, i, last)
      {
        DataBlock(m, own, first, i, bn);
      }
      assert Written(m, i, from, k) == Written(m, i, from, k - 1) + {At(m, i, last)};
    }
  }

  /** When a full chunk of filewrite at off has been written, it lies in at least 13 different
      blocks of the file, each of which was logged; its begin_op reserved MAXOPBLOCKS. So every
      full chunk leaves its reservation, whatever it has to allocate. */
  lemma ChunkLeaves(m: Image, own: map<nat, Slot>, first: nat, i: nat, off: nat)
    requires Inv(m, own, first) && i < |m.inodes| && off + CHUNK <= m.inodes[i].size
    ensures Shape(m) && off / BSIZE + Touched(off, CHUNK) <= MAXFILE
    ensures |Written(m, i, off / BSIZE, Touched(off, CHUNK))| == Touched(off, CHUNK) >= 13 > LogDisk.MAXOPBLOCKS
  {
    var from, k := off / BSIZE, Touched(off, CHUNK);
    forall bn | from <= bn < from + k
      ensures At(m, i, bn) != 0
    {
      assert BSIZE * bn < m.inodes[i].size;
    }
    WrittenCount(m, own, first, i, from, k);
  }

  ghost function Entries(i: nat, k: nat): set<Slot> { set bn: nat | bn < k :: Data(i, bn) }

  lemma {:induction false} EntriesCount(i: nat, k: nat)
    ensures |Entries(i, k)| == k
  {
    if k == 0 {
      assert Entries(i, 0) == {};
    } else {
      EntriesCount(i, k - 1);
      assert Entries(i, k) == Entries(i, k - 1) + {Data(i, k - 1)};
    }
  }

  lemma FirstChunkWants(i: nat)
    ensures Wanted(i, 0, CHUNK) == Entries(i, 13) + {Indirect(i)}
  {
    var w := Wanted(i, 0, CHUNK);
    forall bn: nat | bn < 13
      ensures Data(i, bn) in w
    {
      assert BlockNo(BSIZE * bn) == bn;
    }
  }

  lemma Unowned(own: map<nat, Slot>, s: set<Slot>)
    requires forall x :: x in s ==> x !in own.Values
    ensures Lacks(own, s) == |s|
  {
    assert s - own.Values == s;
  }

  /** The first chunk of an empty file makes 43 log_write calls. */
  lemma FirstChunkLogs(m: Image, own: map<nat, Slot>, first: nat, i: nat)
    requires Inv(m, own, first) && i < |m.inodes| && m.inodes[i] == Inode(NoAddrs(), 0)
    ensures Logs(m, own, i, 0, CHUNK) == 43
  {
    hide Lacks, Wanted;
    var w := Entries(i, 13) + {Indirect(i)};
    FirstChunkWants(i);
    EntriesCount(i, 13);
    assert |w| == 14;
    assert Leaves(w) == {Data(i, 12)};
    forall s | s in w
      ensures s !in own.Values
    {
      SlotTaken(m, own, first, s);
    }
    Unowned(own, w);
    Unowned(own, Leaves(w));
    hide Inv;
  }

  lemma TakenIndirect(m: Image, own: map<nat, Slot>, first: nat, i: nat)
    requires Inv(m, own, first) && i < |m.inodes|
    ensures m.inodes[i].addrs[NDIRECT] != 0 ==> Spent(m, own, m, own, {Indirect(i)})
    ensures m.inodes[i].addrs[NDIRECT] != 0 ==> Logged(own, {Indirect(i)}) == 0
    ensures Lacks(own, {Indirect(i)}) == if m.inodes[i].addrs[NDIRECT] != 0 then 0 else 1
  {
    hide Spent, Lacks, Logged;
    SlotTaken(m, own, first, Indirect(i));
    NeedsOne(m, own, Indirect(i));
    LoggedOne(own, Indirect(i));
  }

  lemma TakenData(m: Image, own: map<nat, Slot>, first: nat, i: nat, bn: nat)
    requires Inv(m, own, first) && i < |m.inodes| && bn < MAXFILE
    ensures At(m, i, bn) != 0 ==> Spent(m, own, m, own, {Data(i, bn)})
    ensures At(m, i, bn) != 0 ==> Logged(own, {Data(i, bn)}) == 0
    ensures Lacks(own, {Data(i, bn)}) == if At(m, i, bn) != 0 then 0 else 1
  {
    hide Spent, Lacks, Logged;
    SlotTaken(m, own, first, Data(i, bn));
    NeedsOne(m, own, Data(i, bn));
    LoggedOne(own, Data(i, bn));
  }

  lemma SameFree(m: Image, n: Image)
    requires n.bits == m.bits && |n.blocks| == |m.blocks|
    ensures Free(n) == Free(m)
  {
  }

  lemma SpentNone(m: Image, own: map<nat, Slot>, i: nat, off: nat)
    ensures Wanted(i, off, 0) == {} && Spent(m, own, m, own, {}) && Lacks(own, {}) == 0
  {
    assert Wanted(i, off, 0) == {};
    assert {} - own.Values == {} && own.Values + {} == own.Values;
  }

  lemma Parts<T>(s: set<T>, t: set<T>, v: set<T>)
    ensures |(s + t) - v| == |s - v| + |t - (v + s)|
  {
    var x, y := s - v, t - (v + s);
    assert (s + t) - v == x + y && x !! y;
  }

  lemma Fewer<T>(x: set<T>, y: set<T>)
    requires x <= y
    ensures |x| <= |y|
  {
    assert y == x + (y - x);
  }

  lemma LacksTwo(oa: map<nat, Slot>, ob: map<nat, Slot>, s: set<Slot>, t: set<Slot>)
    requires ob.Values == oa.Values + s
    ensures Lacks(oa, s + t) == Lacks(oa, s) + Lacks(ob, t)
  {
    Parts(s, t, oa.Values);
  }

  lemma LacksMore(own: map<nat, Slot>, s: set<Slot>, u: set<Slot>)
    requires s <= u
    ensures Lacks(own, s) <= Lacks(own, u)
  {
    Fewer(s - own.Values, u - own.Values);
  }

  lemma SpentTwo(a: Image, oa: map<nat, Slot>, b: Image, ob: map<nat, Slot>, c: Image, oc: map<nat, Slot>,
          s: set<Slot>, t: set<Slot>)
    requires Spent(a, oa, b, ob, s) && Spent(b, ob, c, oc, t)
    ensures Spent(a, oa, c, oc, s + t)
  {
    hide Free, Lacks;
    LacksTwo(oa, ob, s, t);
    assert oa.Values + (s + t) == (oa.Values + s) + t;
  }

  /** Slots for which the free blocks do not suffice, after others were given theirs. */
  lemma SpentShort(a: Image, oa: map<nat, Slot>, b: Image, ob: map<nat, Slot>, s: set<Slot>, t: set<Slot>, u: set<Slot>)
    requires Spent(a, oa, b, ob, s) && Lacks(ob, t) > Free(b) && s + t <= u
    ensures Lacks(oa, u) > Free(a)
  {
    hide Free, Lacks;
    LacksTwo(oa, ob, s, t);
    LacksMore(oa, s + t, u);
  }

  lemma SpentEnough(a: Image, oa: map<nat, Slot>, b: Image, ob: map<nat, Slot>, s: set<Slot>)
    requires Spent(a, oa, b, ob, s)
    ensures Lacks(oa, s) <= Free(a)
  {
  }

  lemma SpentResized(a: Image, oa: map<nat, Slot>, b: Image, c: Image, ob: map<nat, Slot>, s: set<Slot>)
    requires Spent(a, oa, b, ob, s) && c.bits == b.bits && |c.blocks| == |b.blocks|
    ensures Spent(a, oa, c, ob, s)
  {
    SameFree(b, c);
  }

  /** A chunk within one block. */
  lemma WantedNext(i: nat, off: nat, tot: nat, k: nat, n: nat)
    requires 0 < k && tot + k <= n && (off + tot) % BSIZE + k <= BSIZE
    ensures Wanted(i, off, tot + k) == Wanted(i, off, tot) + Needs(i, (off + tot) / BSIZE)
    ensures Wanted(i, off, tot) + Needs(i, (off + tot) / BSIZE) <= Wanted(i, off, n)
  {
    WantedPlus(i, off, tot, k);
    WantedBlock(i, off + tot, k);
    WantedMore(i, off, tot + k, n);
  }

  lemma WantedBlock(i: nat, o: nat, k: nat)
    requires 0 < k && o % BSIZE + k <= BSIZE
    ensures Wanted(i, o, k) == Needs(i, o / BSIZE)
  {
    forall j | o <= j < o + k
      ensures BlockNo(j) == o / BSIZE
    {
      InBlock(o, k, j);
    }
    assert BlockNo(o) == o / BSIZE && BlockNo(o + k - 1) == o / BSIZE;
  }

  lemma BlockNoGrows(j: nat, k: nat)
    requires j <= k
    ensures BlockNo(j) <= BlockNo(k)
  {
  }

  lemma WantedPlus(i: nat, off: nat, a: nat, b: nat)
    ensures Wanted(i, off, a + b) == Wanted(i, off, a) + Wanted(i, off + a, b)
  {
    var x, y := Wanted(i, off, a + b), Wanted(i, off, a) + Wanted(i, off + a, b);
    if a > 0 && b > 0 { BlockNoGrows(off + a - 1, off + a + b - 1); }
    forall s
      ensures s in x <==> s in y
    {
      if s.Data? && s in x {
        var k :| off <= k < off + (a + b) && s == Data(i, BlockNo(k));
      }
    }
  }

  lemma WantedMore(i: nat, off: nat, a: nat, n: nat)
    requires a <= n
    ensures Wanted(i, off, a) <= Wanted(i, off, n)
  {
    WantedPlus(i, off, a, n - a);
  }

  lemma Shaped(m: Image, own: map<nat, Slot>, first: nat, i: nat)
    requires Inv(m, own, first)
    ensures Shape(m) && Sizes(m)
  {
  }

  lemma OnlyAddsNone(own: map<nat, Slot>, i: nat)
    ensures OnlyAdds(own, own, i)
  {
  }

  lemma OnlyAddsTwo(a: map<nat, Slot>, b: map<nat, Slot>, c: map<nat, Slot>, i: nat)
    requires OnlyAdds(a, b, i) && OnlyAdds(b, c, i)
    ensures OnlyAdds(a, c, i)
  {
  }

  /** bs has been written at off, in as many writes as it took; nothing if off is past the end. */
  ghost predicate SoFar(m: Image, n: Image, i: nat, off: nat, bs: seq<Byte>)
    requires Shape(m) && Sizes(m) && Shape(n) && Sizes(n) && i < |m.inodes| && i < |n.inodes|
  {
    if off <= m.inodes[i].size then Contents(n, i) == Overwritten(Contents(m, i), off, bs) else bs == [] && n == m
  }

  lemma SoFarNone(m: Image, i: nat, off: nat)
    requires Shape(m) && Sizes(m) && i < |m.inodes|
    ensures SoFar(m, m, i, off, [])
  {
    OverwrittenNone(Contents(m, i), Min(off, m.inodes[i].size));
  }

  lemma SoFarLength(m: Image, n: Image, i: nat, off: nat, bs: seq<Byte>)
    requires Shape(m) && Sizes(m) && Shape(n) && Sizes(n) && i < |m.inodes| && i < |n.inodes| && SoFar(m, n, i, off, bs)
    ensures off <= m.inodes[i].size ==> off + |bs| <= n.inodes[i].size <= MAXFILE * BSIZE
    ensures off > m.inodes[i].size ==> bs == [] && n == m
    ensures off <= m.inodes[i].size ==> Contents(n, i) == Overwritten(Contents(m, i), off, bs)
  {
    if off <= m.inodes[i].size {
      OverwrittenTwo(Contents(m, i), off, bs, []);
    }
  }

  lemma SoFarTwo(m: Image, n: Image, o: Image, i: nat, off: nat, bs: seq<Byte>, cs: seq<Byte>)
    requires Shape(m) && Sizes(m) && Shape(n) && Sizes(n) && Shape(o) && Sizes(o)
    requires i < |m.inodes| && i < |n.inodes| && i < |o.inodes| && SoFar(m, n, i, off, bs)
    requires off <= m.inodes[i].size && off + |bs| <= n.inodes[i].size
    requires Contents(o, i) == Overwritten(Contents(n, i), off + |bs|, cs)
    ensures SoFar(m, o, i, off, bs + cs)
  {
    OverwrittenTwo(Contents(m, i), off, bs, cs);
  }

  lemma OverwrittenNone(f: seq<Byte>, off: nat)
    requires off <= |f|
    ensures Overwritten(f, off, []) == f
  {
  }

  lemma OverwrittenTwo(f: seq<Byte>, off: nat, a: seq<Byte>, b: seq<Byte>)
    requires off <= |f|
    ensures off + |a| <= |Overwritten(f, off, a)|
    ensures Overwritten(Overwritten(f, off, a), off + |a|, b) == Overwritten(f, off, a + b)
  {
  }

  lemma WroteFrame(m: Image, n: Image, i: nat, off: nat, bs: seq<Byte>)
    requires Shape(m) && Shape(n) && i < |m.inodes| && off + |bs| <= MAXFILE * BSIZE && Wrote(m, n, i, off, bs)
    ensures SameFrame(m, n)
  {
  }

  /** A chunk of a file inside one block. */
  lemma ChunkRead(m: Image, i: nat, o: nat, k: nat)
    requires Shape(m) && i < |m.inodes| && m.inodes[i].size <= MAXFILE * BSIZE
    requires o + k <= m.inodes[i].size && 0 < k && o % BSIZE + k <= BSIZE && At(m, i, o / BSIZE) < |m.blocks|
    ensures m.blocks[At(m, i, o / BSIZE)][o % BSIZE..o % BSIZE + k] == Contents(m, i)[o..o + k]
  {
    var x, y := m.blocks[At(m, i, o / BSIZE)][o % BSIZE..o % BSIZE + k], Contents(m, i)[o..o + k];
    forall j | 0 <= j < k
      ensures x[j] == y[j]
    {
      InBlock(o, k, o + j);
      assert Contents(m, i)[o + j] == ByteAt(m, i, o + j);
    }
  }

  /** itrunc with the first k entries of file i's list freed: their bits are clear, the
      direct ones among them are 0. */
  ghost predicate Partly(m: Image, n: Image, i: nat, k: nat)
    requires Shape(m) && i < |m.inodes| && k <= MAXFILE
  {
    && n.blocks == m.blocks && |n.bits| == |m.bits| && |n.inodes| == |m.inodes|
    && n.inodes == m.inodes[i := n.inodes[i]] && |n.inodes[i].addrs| == NDIRECT + 1
    && (forall j :: 0 <= j <= NDIRECT ==>
          n.inodes[i].addrs[j] == if j < k && j < NDIRECT then 0 else m.inodes[i].addrs[j])
    && (forall b: nat :: Used(n.bits, b) <==> Used(m.bits, b) && !Listed(m, i, k, b))
  }

  /** Block b stands among the first k entries of file i's list. */
  ghost predicate Listed(m: Image, i: nat, k: nat, b: nat)
    requires Shape(m) && i < |m.inodes| && k <= MAXFILE
  {
    b != 0 && exists bn :: 0 <= bn < k && At(m, i, bn) == b
  }

  lemma PartlyNone(m: Image, own: map<nat, Slot>, first: nat, i: nat)
    requires Inv(m, own, first) && i < |m.inodes|
    ensures Shape(m) && Partly(m, m, i, 0)
  {
  }

  /** itrunc frees entry k of the list. */
  function FreeEntry(n: Image, i: nat, k: nat, a: nat): Image
    requires i < |n.inodes| && |n.inodes[i].addrs| == NDIRECT + 1 && a / 8 < |n.bits|
  {
    if a == 0 then n
    else if k < NDIRECT then SetAddr(n.(bits := Cleared(n.bits, a)), i, k, 0)
    else n.(bits := Cleared(n.bits, a))
  }

  /** Entry k, if there is one, is still in use when its turn comes. */
  lemma PartlyNext(m: Image, own: map<nat, Slot>, first: nat, n: Image, i: nat, k: nat)
    requires Inv(m, own, first) && i < |m.inodes| && k < MAXFILE && Partly(m, n, i, k)
    ensures Shape(m) && (At(m, i, k) != 0 ==> At(m, i, k) < |m.blocks| <= 8 * |n.bits| && Used(n.bits, At(m, i, k)))
    ensures At(m, i, k) / 8 < |n.bits| || At(m, i, k) == 0
    ensures At(m, i, k) != 0 ==> Partly(m, FreeEntry(n, i, k, At(m, i, k)), i, k + 1)
    ensures At(m, i, k) == 0 ==> Partly(m, n, i, k + 1)
  {
    var a := At(m, i, k);
    forall b: nat
      ensures Listed(m, i, k + 1, b) <==> Listed(m, i, k, b) || (b != 0 && b == a)
    {
      if b == a { assert At(m, i, k) == b; }
    }
    if a != 0 {
      DataBlock(m, own, first, i, k);
      forall bn | 0 <= bn < k
        ensures At(m, i, bn) != a
      {
        if At(m, i, bn) != 0 { DataBlock(m, own, first, i, bn); }
      }
      assert !Listed(m, i, k, a);
      forall b: nat
        ensures Used(Cleared(n.bits, a), b) <==> b != a && Used(n.bits, b)
      {
        BitChanges(n.bits, a, b);
      }
    }
    hide At, Used;
  }

  /** The whole list freed, the indirect block is what is left of the file. */
  lemma PartlyAll(m: Image, own: map<nat, Slot>, first: nat, n: Image, i: nat)
    requires Inv(m, own, first) && i < |m.inodes| && Partly(m, n, i, MAXFILE) && m.inodes[i].addrs[NDIRECT] != 0
    ensures var t := m.inodes[i].addrs[NDIRECT];
      t < |m.blocks| <= 8 * |n.bits| && Used(n.bits, t) && Freed(m, Cleared(n.bits, t), own, i)
  {
    var t := m.inodes[i].addrs[NDIRECT];
    assert SlotOk(m, Indirect(i)) && InSlot(m, Indirect(i)) == t;
    forall bn | 0 <= bn < MAXFILE
      ensures At(m, i, bn) != t
    {
      if At(m, i, bn) != 0 { DataBlock(m, own, first, i, bn); }
    }
    assert !Listed(m, i, MAXFILE, t);
    forall b: nat
      ensures Used(Cleared(n.bits, t), b) <==> Used(m.bits, b) && !(b in own && own[b].ino == i)
    {
      BitChanges(n.bits, t, b);
      OwnedIsListed(m, own, first, i, b);
    }
  }

  lemma PartlyDirect(m: Image, own: map<nat, Slot>, first: nat, n: Image, i: nat)
    requires Inv(m, own, first) && i < |m.inodes| && Partly(m, n, i, NDIRECT) && m.inodes[i].addrs[NDIRECT] == 0
    ensures Freed(m, n.bits, own, i)
  {
    forall b: nat
      ensures Used(n.bits, b) <==> Used(m.bits, b) && !(b in own && own[b].ino == i)
    {
      OwnedIsListed(m, own, first, i, b);
      if Listed(m, i, MAXFILE, b) {
        var bn :| 0 <= bn < MAXFILE && At(m, i, bn) == b;
        assert Listed(m, i, NDIRECT, b);
      }
    }
  }

  lemma OwnedIsListed(m: Image, own: map<nat, Slot>, first: nat, i: nat, b: nat)
    requires Inv(m, own, first) && i < |m.inodes|
    ensures b in own && own[b].ino == i <==> Listed(m, i, MAXFILE, b) || (b != 0 && b == m.inodes[i].addrs[NDIRECT])
  {
    if b in own && own[b].ino == i {
      assert InSlot(m, own[b]) == b;
      if own[b].Data? { assert At(m, i, own[b].bn) == b; }
    }
    if Listed(m, i, MAXFILE, b) {
      var bn :| 0 <= bn < MAXFILE && At(m, i, bn) == b;
      DataBlock(m, own, first, i, bn);
    }
    if b != 0 && b == m.inodes[i].addrs[NDIRECT] {
      assert SlotOk(m, Indirect(i)) && InSlot(m, Indirect(i)) == b;
    }
  }
}
