/** The blocks and inodes of a file system as values: fs.h's layout, the free bitmap, the
    direct and indirect block lists of fs.c, and who owns which block. */
module FsImage {

  const BSIZE := 512
  const NDIRECT := 12
  const NINDIRECT := 128
  const MAXFILE := 140
  const WORDS := 0x1_0000_0000

  type Byte = b: int | 0 <= b < 256
  type Block = s: seq<Byte> | |s| == 512 witness seq(512, _ => 0)

  // ------------------------------------------------------------ bits and words

  function Mask(k: nat): bv8
    requires k < 8
  {
    if k == 0 then 1 else if k == 1 then 2 else if k == 2 then 4 else if k == 3 then 8
    else if k == 4 then 16 else if k == 5 then 32 else if k == 6 then 64 else 128
  }

  predicate Bit(x: bv8, k: nat)
    requires k < 8
  {
    (x & Mask(k)) != 0
  }

  function SetBit(x: bv8, k: nat): bv8
    requires k < 8
  {
    x | Mask(k)
  }

  function ClearBit(x: bv8, k: nat): bv8
    requires k < 8
  {
    x & !Mask(k)
  }

  lemma BitSet(x: bv8, k: nat, j: nat)
    requires j < 8 && k < 8
    ensures Bit(SetBit(x, k), j) <==> j == k || Bit(x, j)
    ensures Bit(ClearBit(x, k), j) <==> j != k && Bit(x, j)
  {
  }

  /** Bit b of the map. Block b/BPB of the map, byte (b%BPB)/8, is byte b/8 of it all. */
  predicate Used(bits: seq<bv8>, b: nat) {
    b / 8 < |bits| && Bit(bits[b / 8], b % 8)
  }

  function Marked(bits: seq<bv8>, b: nat): (r: seq<bv8>)
    requires b / 8 < |bits|
    ensures |r| == |bits|
  {
    bits[b / 8 := SetBit(bits[b / 8], b % 8)]
  }

  function Cleared(bits: seq<bv8>, b: nat): (r: seq<bv8>)
    requires b / 8 < |bits|
    ensures |r| == |bits|
  {
    bits[b / 8 := ClearBit(bits[b / 8], b % 8)]
  }

  /** Marking and clearing change the bit of one block and no other. */
  lemma BitChanges(bits: seq<bv8>, b: nat, c: nat)
    requires b / 8 < |bits|
    ensures Used(Marked(bits, b), c) <==> c == b || Used(bits, c)
    ensures Used(Cleared(bits, b), c) <==> c != b && Used(bits, c)
  {
    hide Bit, SetBit, ClearBit;
    BitSet(bits[b / 8], b % 8, c % 8);
  }

  /** Word j of an indirect block, least significant byte first. */
  function Word(a: Block, j: nat): (w: nat)
    requires j < NINDIRECT
    ensures w < WORDS
  {
    a[4 * j] as int + 256 * (a[4 * j + 1] as int) + 65536 * (a[4 * j + 2] as int) + 16777216 * (a[4 * j + 3] as int)
  }

  function WithWord(a: Block, j: nat, w: nat): Block
    requires j < NINDIRECT && w < WORDS
  {
    a[4 * j := w % 256][4 * j + 1 := w / 256 % 256][4 * j + 2 := w / 65536 % 256][4 * j + 3 := w / 16777216]
  }

  lemma WordSet(a: Block, j: nat, w: nat, k: nat)
    requires j < NINDIRECT && k < NINDIRECT && w < WORDS
    ensures Word(WithWord(a, j, w), k) == if k == j then w else Word(a, k)
  {
    assert w / 65536 == w / 256 / 256 && w / 16777216 == w / 65536 / 256;
    assert w == 256 * (w / 256) + w % 256;
  }

  function Zero(): (b: Block)
    ensures forall i :: 0 <= i < 512 ==> b[i] == 0
  {
    seq(512, _ => 0)
  }

  lemma ZeroWords(j: nat)
    requires j < NINDIRECT
    ensures Word(Zero(), j) == 0
  {
  }

  // ------------------------------------------------------------ inodes and blocks

  /** addrs: NDIRECT direct blocks and the indirect one; 0 for none. */
  datatype Inode = Inode(addrs: seq<nat>, size: nat)

  /** The current contents of every block, through the cache and the log. */
  datatype Image = Image(bits: seq<bv8>, blocks: seq<Block>, inodes: seq<Inode>)

  /** Where a block number is kept: as block bn of a file, or as its indirect block. */
  datatype Slot = Data(ino: nat, bn: nat) | Indirect(ino: nat)

  predicate Shape(m: Image) {
    && |m.blocks| <= WORDS && |m.blocks| <= 8 * |m.bits|
    && forall i :: 0 <= i < |m.inodes| ==> InodeShape(m.inodes[i], |m.blocks|)
  }

  predicate InodeShape(n: Inode, blocks: nat) {
    |n.addrs| == NDIRECT + 1 && (n.addrs[NDIRECT] != 0 ==> n.addrs[NDIRECT] < blocks)
  }

  /** The block list of inode i, entry bn. */
  function At(m: Image, i: nat, bn: nat): nat
    requires Shape(m) && i < |m.inodes| && bn < MAXFILE
  {
    var a := m.inodes[i].addrs;
    if bn < NDIRECT then a[bn] else if a[NDIRECT] == 0 then 0 else Word(m.blocks[a[NDIRECT]], bn - NDIRECT)
  }

  function InSlot(m: Image, s: Slot): nat
    requires Shape(m) && SlotOk(m, s)
  {
    match s case Data(i, bn) => At(m, i, bn) case Indirect(i) => m.inodes[i].addrs[NDIRECT]
  }

  predicate SlotOk(m: Image, s: Slot) {
    s.ino < |m.inodes| && (s.Data? ==> s.bn < MAXFILE)
  }

  /** Every block number in a slot is owned by that slot. */
  ghost predicate Claims(m: Image, own: map<nat, Slot>)
    requires Shape(m)
  {
    forall s :: SlotOk(m, s) && InSlot(m, s) != 0 ==> InSlot(m, s) in own && own[InSlot(m, s)] == s
  }

  /** Every owned block is a data block and stands in the slot that owns it. */
  ghost predicate Stands(m: Image, own: map<nat, Slot>, first: nat)
    requires Shape(m)
  {
    forall b :: b in own ==> first <= b < |m.blocks| && SlotOk(m, own[b]) && InSlot(m, own[b]) == b
  }

  /** A bit is set for the metadata blocks below `first` and for the owned blocks. */
  ghost predicate BitsTell(m: Image, own: map<nat, Slot>, first: nat) {
    forall b :: 0 <= b < |m.blocks| ==> (Used(m.bits, b) <==> b < first || b in own)
  }

  /** The blocks below a file's size are allocated. */
  ghost predicate NoHoles(m: Image)
    requires Shape(m)
  {
    forall i, bn :: 0 <= i < |m.inodes| && 0 <= bn < MAXFILE && BSIZE * bn < m.inodes[i].size ==> At(m, i, bn) != 0
  }

  ghost predicate Sizes(m: Image) {
    forall i :: 0 <= i < |m.inodes| ==> m.inodes[i].size <= MAXFILE * BSIZE
  }

  ghost predicate Inv(m: Image, own: map<nat, Slot>, first: nat) {
    && Shape(m) && 0 < first && Claims(m, own) && Stands(m, own, first) && BitsTell(m, own, first) && NoHoles(m)
    && Sizes(m)
  }

  /** The bytes of file i. */
  function ByteAt(m: Image, i: nat, k: nat): Byte
    requires Shape(m) && i < |m.inodes| && k < MAXFILE * BSIZE
  {
    var b := At(m, i, k / BSIZE);
    if b < |m.blocks| then m.blocks[b][k % BSIZE] else 0
  }

  function Contents(m: Image, i: nat): (r: seq<Byte>)
    requires Shape(m) && i < |m.inodes| && m.inodes[i].size <= MAXFILE * BSIZE
    ensures |r| == m.inodes[i].size
  {
    seq(m.inodes[i].size, k requires 0 <= k < m.inodes[i].size => ByteAt(m, i, k))
  }

  // ------------------------------------------------------------ giving a slot a block

  /** balloc's effect: bit set, block zeroed. */
  function Alloc(m: Image, b: nat): Image
    requires b < |m.blocks| && b / 8 < |m.bits|
  {
    m.(bits := Marked(m.bits, b), blocks := m.blocks[b := Zero()])
  }

  function SetAddr(m: Image, i: nat, k: nat, b: nat): Image
    requires i < |m.inodes| && k < |m.inodes[i].addrs|
  {
    m.(inodes := m.inodes[i := m.inodes[i].(addrs := m.inodes[i].addrs[k := b])])
  }

  /** Slot s of the image gets block b, just allocated. */
  function Given(m: Image, s: Slot, b: nat): Image
    requires Shape(m) && SlotOk(m, s) && b < |m.blocks| && b / 8 < |m.bits|
    requires s.Data? && s.bn >= NDIRECT ==> 0 < m.inodes[s.ino].addrs[NDIRECT]
  {
    var n := Alloc(m, b);
    if s.Indirect? then SetAddr(n, s.ino, NDIRECT, b)
    else if s.bn < NDIRECT then SetAddr(n, s.ino, s.bn, b)
    else
      var t := m.inodes[s.ino].addrs[NDIRECT];
      n.(blocks := n.blocks[t := WithWord(n.blocks[t], s.bn - NDIRECT, b)])
  }

  lemma FreeBlock(m: Image, own: map<nat, Slot>, first: nat, b: nat)
    requires Inv(m, own, first) && b < |m.blocks| && !Used(m.bits, b)
    ensures first <= b && b !in own && 0 < b
  {
  }

  /** The slots after Given: s holds b, the others what they held. */
  lemma GivenSlot(m: Image, own: map<nat, Slot>, first: nat, s: Slot, b: nat, t: Slot)
    requires Inv(m, own, first) && b < |m.blocks| && !Used(m.bits, b)
    requires SlotOk(m, s) && SlotOk(m, t) && InSlot(m, s) == 0
    requires s.Data? && s.bn >= NDIRECT ==> 0 < m.inodes[s.ino].addrs[NDIRECT]
    ensures Shape(Given(m, s, b)) && InSlot(Given(m, s, b), t) == if t == s then b else InSlot(m, t)
  {
    FreeBlock(m, own, first, b);
    var n := Given(m, s, b);
    assert n.inodes[t.ino].addrs == m.inodes[t.ino].addrs || t.ino == s.ino;
    if t.Data? && t.bn >= NDIRECT {
      var x := m.inodes[t.ino].addrs[NDIRECT];
      if x != 0 {
        assert InSlot(m, Indirect(t.ino)) == x;
      }
      var y := m.inodes[s.ino].addrs[NDIRECT];
      if y != 0 {
        assert InSlot(m, Indirect(s.ino)) == y;
      }
      if s.Data? && s.bn >= NDIRECT && x == y {
        assert t.ino == s.ino;
        WordSet(m.blocks[y], s.bn - NDIRECT, b, t.bn - NDIRECT);
      }
      ZeroWords(t.bn - NDIRECT);
    }
    hide Word, WithWord, Zero;
  }

  /** Block b free and slot s empty: what bmap allocates for. */
  ghost predicate Vacant(m: Image, own: map<nat, Slot>, first: nat, s: Slot, b: nat) {
    && Inv(m, own, first) && b < |m.blocks| && !Used(m.bits, b)
    && SlotOk(m, s) && InSlot(m, s) == 0
    && (s.Data? && s.bn >= NDIRECT ==> 0 < m.inodes[s.ino].addrs[NDIRECT])
  }

  lemma GivenBits(m: Image, own: map<nat, Slot>, first: nat, s: Slot, b: nat)
    requires Vacant(m, own, first, s, b)
    ensures BitsTell(Given(m, s, b), own[b := s], first)
  {
    FreeBlock(m, own, first, b);
    var n := Given(m, s, b);
    assert n.bits == Marked(m.bits, b) && |n.blocks| == |m.blocks|;
    forall c | 0 <= c < |n.blocks|
      ensures Used(n.bits, c) <==> c < first || c in own[b := s]
    {
      BitChanges(m.bits, b, c);
    }
  }

  lemma GivenSlots(m: Image, own: map<nat, Slot>, first: nat, s: Slot, b: nat)
    requires Vacant(m, own, first, s, b)
    ensures Shape(Given(m, s, b)) && SameFrame(m, Given(m, s, b))
    ensures forall t :: SlotOk(m, t) ==> InSlot(Given(m, s, b), t) == if t == s then b else InSlot(m, t)
  {
    hide Claims, Stands, BitsTell, NoHoles, Sizes;
    var n := Given(m, s, b);
    GivenSlot(m, own, first, s, b, s);
    forall t | SlotOk(m, t)
      ensures InSlot(n, t) == if t == s then b else InSlot(m, t)
    {
      GivenSlot(m, own, first, s, b, t);
    }
  }

  lemma GivenInv(m: Image, own: map<nat, Slot>, first: nat, s: Slot, b: nat)
    requires Vacant(m, own, first, s, b)
    ensures Inv(Given(m, s, b), own[b := s], first)
  {
    hide Given, InSlot, Used, BitsTell, At;
    FreeBlock(m, own, first, b);
    GivenBits(m, own, first, s, b);
    GivenSlots(m, own, first, s, b);
    var n := Given(m, s, b);
    assert Claims(n, own[b := s]);
    assert Stands(n, own[b := s], first);
    forall i, bn | 0 <= i < |n.inodes| && 0 <= bn < MAXFILE && BSIZE * bn < n.inodes[i].size
      ensures At(n, i, bn) != 0
    {
      SlotAt(m, i, bn);
      SlotAt(n, i, bn);
      assert SlotOk(m, Data(i, bn));
    }
  }

  lemma SlotAt(m: Image, i: nat, bn: nat)
    requires Shape(m) && i < |m.inodes| && bn < MAXFILE
    ensures InSlot(m, Data(i, bn)) == At(m, i, bn)
  {
  }

  /** The block of a file's data is owned by that entry of its list. */
  lemma DataBlock(m: Image, own: map<nat, Slot>, first: nat, i: nat, bn: nat)
    requires Inv(m, own, first) && i < |m.inodes| && bn < MAXFILE && At(m, i, bn) != 0
    ensures first <= At(m, i, bn) < |m.blocks| && At(m, i, bn) in own && own[At(m, i, bn)] == Data(i, bn)
  {
    SlotAt(m, i, bn);
    assert SlotOk(m, Data(i, bn));
  }

  /** Allocation leaves the bytes of every allocated block of every file alone. */
  lemma GivenBytes(m: Image, own: map<nat, Slot>, first: nat, s: Slot, b: nat, i: nat, k: nat)
    requires Vacant(m, own, first, s, b) && i < |m.inodes| && k < MAXFILE * BSIZE && At(m, i, k / BSIZE) != 0
    ensures Shape(Given(m, s, b)) && ByteAt(Given(m, s, b), i, k) == ByteAt(m, i, k)
  {
    FreeBlock(m, own, first, b);
    DataBlock(m, own, first, i, k / BSIZE);
    GivenSlot(m, own, first, s, b, Data(i, k / BSIZE));
    SlotAt(m, i, k / BSIZE);
    SlotAt(Given(m, s, b), i, k / BSIZE);
    var y := m.inodes[s.ino].addrs[NDIRECT];
    if y != 0 {
      assert InSlot(m, Indirect(s.ino)) == y;
    }
    hide At, Inv, InSlot;
  }

  // ------------------------------------------------------------ writing into a block

  function Spliced(a: Block, at: nat, bs: seq<Byte>): (r: Block)
    requires at + |bs| <= BSIZE
  {
    a[..at] + bs + a[at + |bs|..]
  }

  function Patched(m: Image, b: nat, at: nat, bs: seq<Byte>): Image
    requires b < |m.blocks| && at + |bs| <= BSIZE
  {
    m.(blocks := m.blocks[b := Spliced(m.blocks[b], at, bs)])
  }

  lemma PatchedSlot(m: Image, own: map<nat, Slot>, first: nat, b: nat, at: nat, bs: seq<Byte>, t: Slot)
    requires Inv(m, own, first) && b in own && own[b].Data? && at + |bs| <= BSIZE && SlotOk(m, t)
    ensures b < |m.blocks| && Shape(Patched(m, b, at, bs)) && InSlot(Patched(m, b, at, bs), t) == InSlot(m, t)
  {
    var y := m.inodes[t.ino].addrs[NDIRECT];
    if y != 0 {
      assert InSlot(m, Indirect(t.ino)) == y;
    }
  }

  lemma PatchedInv(m: Image, own: map<nat, Slot>, first: nat, b: nat, at: nat, bs: seq<Byte>)
    requires Inv(m, own, first) && b in own && own[b].Data? && at + |bs| <= BSIZE
    ensures b < |m.blocks| && Inv(Patched(m, b, at, bs), own, first)
  {
    var n := Patched(m, b, at, bs);
    PatchedSlot(m, own, first, b, at, bs, own[b]);
    forall t | SlotOk(m, t)
      ensures InSlot(n, t) == InSlot(m, t)
    {
      PatchedSlot(m, own, first, b, at, bs, t);
    }
    assert n.inodes == m.inodes && n.bits == m.bits && |n.blocks| == |m.blocks|;
    hide Patched, InSlot, Used;
    assert Claims(n, own) && Stands(n, own, first) && BitsTell(n, own, first);
    forall i, bn | 0 <= i < |n.inodes| && 0 <= bn < MAXFILE && BSIZE * bn < n.inodes[i].size
      ensures At(n, i, bn) != 0
    {
      SlotAt(m, i, bn);
      SlotAt(n, i, bn);
      assert SlotOk(m, Data(i, bn));
    }
  }

  /** Writing into the block of entry bn of file i changes those bytes of that file only. */
  lemma PatchedBytes(m: Image, own: map<nat, Slot>, first: nat, i: nat, bn: nat, at: nat, bs: seq<Byte>, j: nat, k: nat)
    requires Inv(m, own, first) && i < |m.inodes| && bn < MAXFILE && At(m, i, bn) != 0 && at + |bs| <= BSIZE
    requires j < |m.inodes| && k < MAXFILE * BSIZE && At(m, j, k / BSIZE) != 0
    ensures At(m, i, bn) < |m.blocks| && Shape(Patched(m, At(m, i, bn), at, bs))
    ensures ByteAt(Patched(m, At(m, i, bn), at, bs), j, k) ==
      if j == i && k / BSIZE == bn && at <= k % BSIZE < at + |bs| then bs[k % BSIZE - at] else ByteAt(m, j, k)
  {
    DataBlock(m, own, first, i, bn);
    DataBlock(m, own, first, j, k / BSIZE);
    var b := At(m, i, bn);
    PatchedSlot(m, own, first, b, at, bs, Data(j, k / BSIZE));
    SlotAt(m, j, k / BSIZE);
    SlotAt(Patched(m, b, at, bs), j, k / BSIZE);
    hide At, Inv, InSlot;
  }

  /** Growing a file over allocated blocks. */
  lemma GrownInv(m: Image, own: map<nat, Slot>, first: nat, i: nat, size: nat)
    requires Inv(m, own, first) && i < |m.inodes| && size <= MAXFILE * BSIZE
    requires forall bn :: 0 <= bn < MAXFILE && BSIZE * bn < size ==> At(m, i, bn) != 0
    ensures Inv(Resized(m, i, size), own, first)
    ensures forall j, k :: 0 <= j < |m.inodes| && 0 <= k < MAXFILE * BSIZE ==>
      ByteAt(Resized(m, i, size), j, k) == ByteAt(m, j, k)
  {
    var n := Resized(m, i, size);
    assert Shape(n);
    forall j, bn | 0 <= j < |m.inodes| && 0 <= bn < MAXFILE
      ensures At(n, j, bn) == At(m, j, bn)
    {
    }
    forall t | SlotOk(m, t)
      ensures InSlot(n, t) == InSlot(m, t)
    {
    }
    assert Claims(n, own) && Stands(n, own, first) && BitsTell(n, own, first);
    hide InSlot;
    hide At;
  }

  function Resized(m: Image, i: nat, size: nat): Image
    requires i < |m.inodes|
  {
    m.(inodes := m.inodes[i := m.inodes[i].(size := size)])
  }

  // ------------------------------------------------------------ files as byte sequences

  predicate SameFrame(m: Image, n: Image) {
    && |n.inodes| == |m.inodes| && |n.blocks| == |m.blocks|
    && forall i :: 0 <= i < |m.inodes| ==> n.inodes[i].size == m.inodes[i].size
  }

  /** From m to n, bytes [off, off + |bs|) of file i became bs; every other byte of an
      allocated block of any file stayed, and so did every entry of a block list. */
  ghost predicate Wrote(m: Image, n: Image, i: nat, off: nat, bs: seq<Byte>)
    requires Shape(m) && Shape(n) && i < |m.inodes| && off + |bs| <= MAXFILE * BSIZE
  {
    && SameFrame(m, n)
    && (forall j, bn :: 0 <= j < |m.inodes| && 0 <= bn < MAXFILE && At(m, j, bn) != 0 ==> At(n, j, bn) == At(m, j, bn))
    && (forall j, k :: 0 <= j < |m.inodes| && 0 <= k < MAXFILE * BSIZE && At(m, j, k / BSIZE) != 0
                       && !(j == i && off <= k < off + |bs|)
          ==> ByteAt(n, j, k) == ByteAt(m, j, k))
    && (forall k :: off <= k < off + |bs| ==> At(n, i, k / BSIZE) != 0 && ByteAt(n, i, k) == bs[k - off])
  }

  /** bmap's effect on the files: none. */
  lemma GivenWrote(m: Image, own: map<nat, Slot>, first: nat, s: Slot, b: nat, i: nat, off: nat)
    requires Vacant(m, own, first, s, b) && i < |m.inodes| && off <= MAXFILE * BSIZE
    ensures Shape(Given(m, s, b)) && Wrote(m, Given(m, s, b), i, off, [])
  {
    var n := Given(m, s, b);
    GivenSlot(m, own, first, s, b, s);
    assert SameFrame(m, n);
    forall j, bn | 0 <= j < |m.inodes| && 0 <= bn < MAXFILE && At(m, j, bn) != 0
      ensures At(n, j, bn) == At(m, j, bn)
    {
      GivenSlot(m, own, first, s, b, Data(j, bn));
    }
    forall j, k | 0 <= j < |m.inodes| && 0 <= k < MAXFILE * BSIZE && At(m, j, k / BSIZE) != 0
      ensures ByteAt(n, j, k) == ByteAt(m, j, k)
    {
      GivenBytes(m, own, first, s, b, j, k);
    }
  }

  lemma PatchedWrote(m: Image, own: map<nat, Slot>, first: nat, i: nat, off: nat, bs: seq<Byte>)
    requires Inv(m, own, first) && i < |m.inodes| && off + |bs| <= MAXFILE * BSIZE && off % BSIZE + |bs| <= BSIZE
    requires 0 < |bs| && At(m, i, off / BSIZE) != 0
    ensures At(m, i, off / BSIZE) < |m.blocks| && Shape(Patched(m, At(m, i, off / BSIZE), off % BSIZE, bs))
    ensures Wrote(m, Patched(m, At(m, i, off / BSIZE), off % BSIZE, bs), i, off, bs)
  {
    DataBlock(m, own, first, i, off / BSIZE);
    var b := At(m, i, off / BSIZE);
    var n := Patched(m, b, off % BSIZE, bs);
    forall j, bn | 0 <= j < |m.inodes| && 0 <= bn < MAXFILE
      ensures Shape(n) && At(n, j, bn) == At(m, j, bn)
    {
      PatchedSlot(m, own, first, b, off % BSIZE, bs, Data(j, bn));
    }
    PatchedSlot(m, own, first, b, off % BSIZE, bs, Data(i, 0));
    forall j, k | 0 <= j < |m.inodes| && 0 <= k < MAXFILE * BSIZE && At(m, j, k / BSIZE) != 0
      ensures ByteAt(n, j, k) == if j == i && off <= k < off + |bs| then bs[k - off] else ByteAt(m, j, k)
    {
      PatchedBytes(m, own, first, i, off / BSIZE, off % BSIZE, bs, j, k);
      InBlock(off, |bs|, k);
    }
    forall k | off <= k < off + |bs|
      ensures At(n, i, k / BSIZE) != 0
    {
      InBlock(off, |bs|, k);
    }
  }

  /** The bytes of a chunk that stays in one block. */
  lemma InBlock(off: nat, len: nat, k: nat)
    requires off % BSIZE + len <= BSIZE
    ensures off <= k < off + len <==> k / BSIZE == off / BSIZE && off % BSIZE <= k % BSIZE < off % BSIZE + len
    ensures off <= k < off + len ==> k - off == k % BSIZE - off % BSIZE
  {
    assert k == BSIZE * (k / BSIZE) + k % BSIZE && off == BSIZE * (off / BSIZE) + off % BSIZE;
  }

  /** Two writes that follow one another are one write. */
  lemma WroteTwo(a: Image, b: Image, c: Image, i: nat, off: nat, bs: seq<Byte>, cs: seq<Byte>)
    requires Shape(a) && Shape(b) && Shape(c) && i < |a.inodes| && off + |bs| + |cs| <= MAXFILE * BSIZE
    requires Wrote(a, b, i, off, bs) && i < |b.inodes| && Wrote(b, c, i, off + |bs|, cs)
    ensures Wrote(a, c, i, off, bs + cs)
  {
    var ds := bs + cs;
    assert SameFrame(a, c);
    forall j, k | 0 <= j < |a.inodes| && 0 <= k < MAXFILE * BSIZE && At(a, j, k / BSIZE) != 0
                  && !(j == i && off <= k < off + |ds|)
      ensures ByteAt(c, j, k) == ByteAt(a, j, k)
    {
      assert ByteAt(b, j, k) == ByteAt(a, j, k);
      assert At(b, j, k / BSIZE) != 0;
    }
    forall k | off <= k < off + |ds|
      ensures At(c, i, k / BSIZE) != 0 && ByteAt(c, i, k) == ds[k - off]
    {
      if k < off + |bs| {
        assert At(b, i, k / BSIZE) != 0 && ByteAt(b, i, k) == bs[k - off];
      } else {
        assert ByteAt(c, i, k) == cs[k - (off + |bs|)];
      }
    }
    hide At, ByteAt;
  }

  lemma WroteNone(m: Image, i: nat, off: nat)
    requires Shape(m) && i < |m.inodes| && off <= MAXFILE * BSIZE
    ensures Wrote(m, m, i, off, [])
  {
  }

  /** File contents with bs written at off, which is at most the old length. */
  function Overwritten(was: seq<Byte>, off: nat, bs: seq<Byte>): (r: seq<Byte>)
    requires off <= |was|
  {
    was[..off] + bs + if off + |bs| < |was| then was[off + |bs|..] else []
  }

  function Max(a: nat, b: nat): nat { if a >= b then a else b }

  /** After the blocks are written and the size set, file i reads as overwritten and
      every other file as before. */
  lemma WroteContents(m: Image, n: Image, own: map<nat, Slot>, own2: map<nat, Slot>, first: nat, i: nat, off: nat,
          bs: seq<Byte>)
    requires Inv(m, own, first) && Inv(n, own2, first) && i < |m.inodes| && off <= m.inodes[i].size
    requires off + |bs| <= MAXFILE * BSIZE
    requires Wrote(m, n, i, off, bs)
    ensures var r := Resized(n, i, Max(m.inodes[i].size, off + |bs|));
      && Inv(r, own2, first)
      && Contents(r, i) == Overwritten(Contents(m, i), off, bs)
      && forall j :: 0 <= j < |m.inodes| && j != i ==> Contents(r, j) == Contents(m, j)
  {
    var size := Max(m.inodes[i].size, off + |bs|);
    forall bn | 0 <= bn < MAXFILE && BSIZE * bn < size
      ensures At(n, i, bn) != 0
    {
      if BSIZE * bn < m.inodes[i].size {
        assert At(m, i, bn) != 0;
      } else {
        assert off <= BSIZE * bn < off + |bs|;
        assert (BSIZE * bn) / BSIZE == bn;
      }
    }
    GrownInv(n, own2, first, i, size);
    var r := Resized(n, i, size);
    SameBytes(m, n, r, own, first, i, off, bs);
  }

  lemma SameBytes(m: Image, n: Image, r: Image, own: map<nat, Slot>, first: nat, i: nat, off: nat, bs: seq<Byte>)
    requires Inv(m, own, first) && Shape(n) && Shape(r) && i < |m.inodes| && off <= m.inodes[i].size
    requires off + |bs| <= MAXFILE * BSIZE
    requires Wrote(m, n, i, off, bs) && r == Resized(n, i, Max(m.inodes[i].size, off + |bs|))
    requires forall j, k :: 0 <= j < |m.inodes| && 0 <= k < MAXFILE * BSIZE ==> ByteAt(r, j, k) == ByteAt(n, j, k)
    ensures forall j :: 0 <= j < |m.inodes| ==> r.inodes[j].size <= MAXFILE * BSIZE
    ensures Contents(r, i) == Overwritten(Contents(m, i), off, bs)
    ensures forall j :: 0 <= j < |m.inodes| && j != i ==> Contents(r, j) == Contents(m, j)
  {
    forall j, k | 0 <= j < |m.inodes| && 0 <= k < m.inodes[j].size && !(j == i && off <= k < off + |bs|)
      ensures ByteAt(r, j, k) == ByteAt(m, j, k)
    {
      assert BSIZE * (k / BSIZE) <= k;
      assert At(m, j, k / BSIZE) != 0;
    }
    hide ByteAt, At;
    var x, y := Contents(r, i), Overwritten(Contents(m, i), off, bs);
    forall k | 0 <= k < |x|
      ensures x[k] == y[k]
    {
    }
    forall j | 0 <= j < |m.inodes| && j != i
      ensures Contents(r, j) == Contents(m, j)
    {
      assert r.inodes[j] == n.inodes[j];
    }
  }

  // ------------------------------------------------------------ truncation

  function NoAddrs(): (r: seq<nat>)
    ensures |r| == NDIRECT + 1
  {
    seq(NDIRECT + 1, _ => 0)
  }

  ghost function Without(own: map<nat, Slot>, i: nat): map<nat, Slot> {
    map b | b in own && own[b].ino != i :: own[b]
  }

  /** Truncation frees exactly the blocks file i owned. */
  ghost predicate Freed(m: Image, bits: seq<bv8>, own: map<nat, Slot>, i: nat) {
    |bits| == |m.bits| && forall b: nat :: Used(bits, b) <==> Used(m.bits, b) && !(b in own && own[b].ino == i)
  }

  lemma TruncSlots(m: Image, bits: seq<bv8>, i: nat)
    requires Shape(m) && i < |m.inodes| && |bits| == |m.bits|
    ensures var n := Image(bits, m.blocks, m.inodes[i := Inode(NoAddrs(), 0)]);
      && Shape(n)
      && (forall t :: SlotOk(m, t) ==> InSlot(n, t) == if t.ino == i then 0 else InSlot(m, t))
      && forall j, bn :: 0 <= j < |m.inodes| && 0 <= bn < MAXFILE && j != i ==> At(n, j, bn) == At(m, j, bn)
  {
  }

  lemma TruncInv(m: Image, bits: seq<bv8>, own: map<nat, Slot>, first: nat, i: nat)
    requires Inv(m, own, first) && i < |m.inodes| && Freed(m, bits, own, i)
    ensures var n := Image(bits, m.blocks, m.inodes[i := Inode(NoAddrs(), 0)]);
      && Inv(n, Without(own, i), first) && Contents(n, i) == []
      && forall j :: 0 <= j < |m.inodes| && j != i ==> Contents(n, j) == Contents(m, j)
  {
    var n := Image(bits, m.blocks, m.inodes[i := Inode(NoAddrs(), 0)]);
    var rest := Without(own, i);
    TruncSlots(m, bits, i);
    hide InSlot;
    assert Claims(n, rest) && Stands(n, rest, first);
    assert BitsTell(n, rest, first);
    assert NoHoles(n) && Sizes(n);
    hide At;
    forall j | 0 <= j < |m.inodes| && j != i
      ensures Contents(n, j) == Contents(m, j)
    {
      assert n.inodes[j] == m.inodes[j];
    }
  }
}
