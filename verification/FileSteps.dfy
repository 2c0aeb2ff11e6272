/** What one block write does to the block pointers, the bitmap and the contents of all files. */
module FileSteps {
  import opened Basics
  import opened Blocks
  import opened FileState

  function WriteBlock(f: FileSys, b: nat, block: Block): (g: FileSys)
    requires b < |f.blocks|
    ensures g == f.(blocks := g.blocks) && |g.blocks| == |f.blocks|
  {
    f.(blocks := f.blocks[b := block])
  }

  /** The bitmap bit of b is set or cleared. */
  function MarkBit(f: FileSys, b: nat, v: bool): (g: FileSys)
    requires Shape(f) && b < f.sb.size
    ensures g == f.(blocks := g.blocks) && |g.blocks| == |f.blocks|
  {
    var bm := BitmapBlock(f.sb, b);
    WriteBlock(f, bm, SetBit(f.blocks[bm], b % BPB, v))
  }

  /** The block writes of balloc when it picks b. */
  function Alloc(f: FileSys, b: nat): (g: FileSys)
    requires Shape(f) && b < f.sb.size
    ensures g == f.(blocks := g.blocks) && |g.blocks| == |f.blocks|
  {
    WriteBlock(MarkBit(f, b, true), b, ZERO_BLOCK)
  }

  // ----- one block write -----

  lemma InodeBlocksFirst(f: FileSys, i: nat)
    requires Shape(f) && i < f.sb.ninodes
    ensures InodeBlock(i) < BitmapStart(f.sb)
  {
  }

  lemma BitmapBlocksNext(f: FileSys, b: nat)
    requires Shape(f) && b < f.sb.size
    ensures BitmapStart(f.sb) <= BitmapBlock(f.sb, b) < DataStart(f.sb)
  {
  }

  /** A write outside the inode blocks and the indirect block of i leaves the pointers of i alone. */
  lemma SlotAfterWrite(f: FileSys, b: nat, block: Block, i: nat, s: nat)
    requires Shape(f) && BitmapStart(f.sb) <= b < f.sb.size && i < f.sb.ninodes && s < SLOTS
    requires Addr(f, i, NDIRECT) != b
    ensures Slot(WriteBlock(f, b, block), i, s) == Slot(f, i, s)
    ensures Size(WriteBlock(f, b, block), i) == Size(f, i)
    ensures Addr(WriteBlock(f, b, block), i, NDIRECT) == Addr(f, i, NDIRECT)
  {
    InodeBlocksFirst(f, i);
  }

  lemma BitAfterWrite(f: FileSys, b: nat, block: Block, x: nat)
    requires Shape(f) && DataStart(f.sb) <= b < f.sb.size && x < f.sb.size
    ensures Bit(WriteBlock(f, b, block), x) <==> Bit(f, x)
  {
    BitmapBlocksNext(f, x);
  }

  lemma BitAfterMark(f: FileSys, b: nat, v: bool, x: nat)
    requires Shape(f) && b < f.sb.size && x < f.sb.size
    ensures Bit(MarkBit(f, b, v), x) <==> if x == b then v else Bit(f, x)
  {
    BitmapBlocksNext(f, b);
    if BitmapBlock(f.sb, x) == BitmapBlock(f.sb, b) {
      GetSetBit(f.blocks[BitmapBlock(f.sb, b)], b % BPB, v, x % BPB);
    }
  }

  // ----- attaching and detaching one block -----

  ghost predicate SameFrame(f: FileSys, g: FileSys) {
    Shape(f) && Shape(g) && f.sb == g.sb && f.ip.inum == g.ip.inum
  }

  /** The bits of the log are what they were. */
  ghost predicate LogBitsKept(f: FileSys, g: FileSys) {
    SameFrame(f, g) && forall x :: LogStart(f.sb) <= x < f.sb.size ==> (Bit(g, x) <==> Bit(f, x))
  }

  /** All pointers but slot s0 of inode i0 agree. */
  ghost predicate SlotsKept(f: FileSys, g: FileSys, i0: nat, s0: nat) {
    && SameFrame(f, g)
    && forall i, s :: 0 <= i < f.sb.ninodes && 0 <= s < SLOTS && (i != i0 || s != s0) ==> Slot(g, i, s) == Slot(f, i, s)
  }

  ghost predicate SizesKept(f: FileSys, g: FileSys) {
    SameFrame(f, g) && forall i :: 0 <= i < f.sb.ninodes && i != f.ip.inum ==> Size(g, i) == Size(f, i)
  }

  /** No data block in use has changed. */
  ghost predicate BlocksKept(f: FileSys, g: FileSys, owner: Owner) {
    SameFrame(f, g) && forall b :: b in owner && owner[b].1 != INDIRECT && b < f.sb.size ==> g.blocks[b] == f.blocks[b]
  }

  lemma Attach(f: FileSys, g: FileSys, owner: Owner, b: nat, s0: nat)
    requires Inv(f, owner) && s0 < SLOTS && SlotsKept(f, g, f.ip.inum, s0) && SizesKept(f, g)
    requires Slot(f, f.ip.inum, s0) == 0 && Slot(g, f.ip.inum, s0) == b
    requires b < LogStart(f.sb) && !Bit(f, b)
    requires forall x :: 0 <= x < f.sb.size ==> (Bit(g, x) <==> Bit(f, x) || x == b)
    ensures b !in owner && !Meta(f.sb, b)
    ensures Inv(g, owner[b := (f.ip.inum, s0)])
  {
    hide Slot, Bit, Size, Data, BitmapBlock, InodeBlock;
    forall i | 0 <= i < g.sb.ninodes && i != g.ip.inum
      ensures Filled(g, i, Size(g, i))
    {
      FilledKept(f, g, i, s0);
    }
  }

  lemma FilledKept(f: FileSys, g: FileSys, i: nat, s0: nat)
    requires SlotsKept(f, g, f.ip.inum, s0) && SizesKept(f, g)
    requires i < f.sb.ninodes && i != f.ip.inum && Filled(f, i, Size(f, i))
    ensures Filled(g, i, Size(g, i))
  {
    forall bn | 0 <= bn < MAXFILE && bn * BSIZE < Size(g, i)
      ensures Data(g, i, bn) != 0
    {
      assert Data(f, i, bn) != 0;
    }
  }

  lemma Detach(f: FileSys, g: FileSys, owner: Owner, b: nat, s0: nat)
    requires Inv(f, owner) && s0 < SLOTS && SlotsKept(f, g, f.ip.inum, s0) && SizesKept(f, g)
    requires Slot(f, f.ip.inum, s0) == b != 0 && Slot(g, f.ip.inum, s0) == 0
    requires forall x :: 0 <= x < f.sb.size ==> (Bit(g, x) <==> Bit(f, x) && x != b)
    ensures b in owner
    ensures Inv(g, owner - {b})
  {
    hide Slot, Bit, Size, Data, BitmapBlock, InodeBlock;
    forall i | 0 <= i < g.sb.ninodes && i != g.ip.inum
      ensures Filled(g, i, Size(g, i))
    {
      FilledKept(f, g, i, s0);
    }
  }

  // ----- contents -----

  /** Inode i keeps the data blocks it has, with what is in them. */
  ghost predicate DataKept(f: FileSys, g: FileSys, i: nat)
  {
    && SameFrame(f, g) && i < f.sb.ninodes
    && forall bn :: 0 <= bn < MAXFILE && Data(f, i, bn) != 0 ==>
         && Data(g, i, bn) == Data(f, i, bn)
         && Data(f, i, bn) < f.sb.size
         && g.blocks[Data(f, i, bn)] == f.blocks[Data(f, i, bn)]
  }

  lemma DataKeptTrans(f: FileSys, g: FileSys, h: FileSys, i: nat)
    requires DataKept(f, g, i) && DataKept(g, h, i)
    ensures DataKept(f, h, i)
  {
  }

  lemma AttachKeepsData(f: FileSys, g: FileSys, owner: Owner, s0: nat, i: nat)
    requires Inv(f, owner) && s0 < SLOTS && SlotsKept(f, g, f.ip.inum, s0) && BlocksKept(f, g, owner)
    requires Slot(f, f.ip.inum, s0) == 0 || i != f.ip.inum
    requires i < f.sb.ninodes
    ensures DataKept(f, g, i)
  {
    forall bn | 0 <= bn < MAXFILE && Data(f, i, bn) != 0
      ensures Data(g, i, bn) == Data(f, i, bn) && Data(f, i, bn) < f.sb.size
      ensures g.blocks[Data(f, i, bn)] == f.blocks[Data(f, i, bn)]
    {
      var d := Data(f, i, bn);
      assert d in owner && owner[d] == (i, DataSlot(bn));
    }
  }

  lemma ContentsKept(f: FileSys, g: FileSys, i: nat)
    requires DataKept(f, g, i) && Size(g, i) == Size(f, i) && Filled(f, i, Size(f, i))
    ensures Size(f, i) <= MAXFILE * BSIZE
    ensures Contents(g, i) == Contents(f, i)
  {
    forall k | 0 <= k < Size(f, i)
      ensures ByteAt(g, i, k) == ByteAt(f, i, k)
    {
      assert Data(f, i, k / BSIZE) != 0;
    }
  }

  // ----- balloc and its uses in bmap -----

  /** Before balloc picks b, below the log: b is free, so no file owns it. */
  ghost predicate Free(f: FileSys, owner: Owner, b: nat) {
    Inv(f, owner) && b < LogStart(f.sb) && !Bit(f, b)
  }

  lemma FreeFacts(f: FileSys, owner: Owner, b: nat)
    requires Free(f, owner, b)
    ensures b !in owner && !Meta(f.sb, b)
    ensures forall i :: 0 <= i < f.sb.ninodes ==>
              Addr(f, i, NDIRECT) != b && Addr(f, i, NDIRECT) != BitmapBlock(f.sb, b)
  {
    BitmapBlocksNext(f, b);
    forall i | 0 <= i < f.sb.ninodes
      ensures Addr(f, i, NDIRECT) != b && Addr(f, i, NDIRECT) != BitmapBlock(f.sb, b)
    {
      assert Slot(f, i, INDIRECT) == Addr(f, i, NDIRECT);
    }
  }

  /** balloc changes no pointer. */
  lemma AllocSlots(f: FileSys, owner: Owner, b: nat, i: nat, s: nat)
    requires Free(f, owner, b) && i < f.sb.ninodes && s < SLOTS
    ensures Shape(Alloc(f, b))
    ensures Slot(Alloc(f, b), i, s) == Slot(f, i, s)
    ensures Size(Alloc(f, b), i) == Size(f, i)
    ensures Addr(Alloc(f, b), i, NDIRECT) == Addr(f, i, NDIRECT)
  {
    FreeFacts(f, owner, b);
    BitmapBlocksNext(f, b);
    var bm := BitmapBlock(f.sb, b);
    var g := MarkBit(f, b, true);
    SlotAfterWrite(f, bm, g.blocks[bm], i, s);
    SlotAfterWrite(g, b, ZERO_BLOCK, i, s);
  }

  lemma AllocBits(f: FileSys, owner: Owner, b: nat, x: nat)
    requires Free(f, owner, b) && x < f.sb.size
    ensures Shape(Alloc(f, b)) && (Bit(Alloc(f, b), x) <==> Bit(f, x) || x == b)
  {
    FreeFacts(f, owner, b);
    BitAfterMark(f, b, true, x);
    BitAfterWrite(MarkBit(f, b, true), b, ZERO_BLOCK, x);
  }

  lemma AllocBlocks(f: FileSys, owner: Owner, b: nat, x: nat)
    requires Free(f, owner, b) && DataStart(f.sb) <= x < f.sb.size
    ensures Alloc(f, b).blocks[x] == if x == b then ZERO_BLOCK else f.blocks[x]
  {
    BitmapBlocksNext(f, b);
  }

  /** ip->addrs[s] = balloc(). */
  function AllocDirect(f: FileSys, b: Word, s: nat): (g: FileSys)
    requires Shape(f) && b < f.sb.size && s <= NDIRECT
  {
    var g := Alloc(f, b);
    g.(ip := g.ip.(addrs := g.ip.addrs[s := b]))
  }

  /** a[j] = balloc() and log_write of the indirect block. */
  function AllocEntry(f: FileSys, b: Word, j: nat): (g: FileSys)
    requires Shape(f) && b < f.sb.size && j < NINDIRECT && f.ip.addrs[NDIRECT] < f.sb.size
  {
    var ind := f.ip.addrs[NDIRECT];
    WriteBlock(Alloc(f, b), ind, SetWord(f.blocks[ind], j, b))
  }

  lemma AllocDirectSlots(f: FileSys, owner: Owner, b: Word, s0: nat)
    requires Free(f, owner, b) && f.dead == 0 && s0 <= NDIRECT && f.ip.addrs[s0] == 0
    ensures SlotsKept(f, AllocDirect(f, b, s0), f.ip.inum, s0)
    ensures SizesKept(f, AllocDirect(f, b, s0))
  {
    hide Owned, Marked, Filled, Bit;
    var g := AllocDirect(f, b, s0);
    FreeFacts(f, owner, b);
    forall i, s | 0 <= i < f.sb.ninodes && 0 <= s < SLOTS && (i != f.ip.inum || s != s0)
      ensures Slot(g, i, s) == Slot(f, i, s) && Size(g, i) == Size(f, i)
    {
      AllocSlots(f, owner, b, i, s);
      if i == f.ip.inum && s0 == NDIRECT && s > NDIRECT {
        ZeroWords(s - 13);
      }
    }
    forall i | 0 <= i < f.sb.ninodes && i != f.ip.inum
      ensures Size(g, i) == Size(f, i)
    {
      assert Slot(g, i, 0) == Slot(f, i, 0);
    }
  }

  /** A fresh direct block, or a fresh indirect block: nothing else changes. */
  lemma AllocDirectKeeps(f: FileSys, owner: Owner, b: Word, s0: nat)
    requires Free(f, owner, b) && f.dead == 0 && s0 <= NDIRECT && f.ip.addrs[s0] == 0
    ensures var g := AllocDirect(f, b, s0);
            && Inv(g, owner[b := (f.ip.inum, s0)])
            && SlotsKept(f, g, f.ip.inum, s0) && SizesKept(f, g) && BlocksKept(f, g, owner)
            && Slot(g, f.ip.inum, s0) == b != 0 && g.blocks[b] == ZERO_BLOCK
            && forall x :: 0 <= x < f.sb.size ==> (Bit(g, x) <==> Bit(f, x) || x == b)
  {
    var g := AllocDirect(f, b, s0);
    FreeFacts(f, owner, b);
    AllocDirectSlots(f, owner, b, s0);
    forall x | 0 <= x < f.sb.size
      ensures Bit(g, x) <==> Bit(f, x) || x == b
    {
      AllocBits(f, owner, b, x);
    }
    forall x | x in owner && x < f.sb.size
      ensures g.blocks[x] == f.blocks[x]
    {
      AllocBlocks(f, owner, b, x);
    }
    AllocBlocks(f, owner, b, b);
    Attach(f, g, owner, b, s0);
  }

  /** A fresh block for entry j of the indirect block: nothing else changes. */
  lemma AllocEntryKeeps(f: FileSys, owner: Owner, b: Word, j: nat)
    requires Free(f, owner, b) && f.dead == 0 && j < NINDIRECT
    requires f.ip.addrs[NDIRECT] != 0 && Slot(f, f.ip.inum, 13 + j) == 0
    ensures f.ip.addrs[NDIRECT] < f.sb.size
    ensures var g := AllocEntry(f, b, j);
            && Inv(g, owner[b := (f.ip.inum, 13 + j)])
            && SlotsKept(f, g, f.ip.inum, 13 + j) && SizesKept(f, g) && BlocksKept(f, g, owner)
            && Slot(g, f.ip.inum, 13 + j) == b != 0 && g.blocks[b] == ZERO_BLOCK
            && Alloc(f, b).blocks[f.ip.addrs[NDIRECT]] == f.blocks[f.ip.addrs[NDIRECT]]
            && forall x :: 0 <= x < f.sb.size ==> (Bit(g, x) <==> Bit(f, x) || x == b)
  {
    hide Owned, Marked, Filled, SlotsKept, SizesKept, BlocksKept, Slot, Bit;
    var ind := f.ip.addrs[NDIRECT];
    IndirectOwned(f, owner);
    var g := AllocEntry(f, b, j);
    FreeFacts(f, owner, b);
    AllocBlocks(f, owner, b, ind);
    AllocBlocks(f, owner, b, b);
    AllocEntrySlots(f, owner, b, j);
    AllocEntryBlocks(f, owner, b, j);
    Attach(f, g, owner, b, 13 + j);
  }

  lemma IndirectOwned(f: FileSys, owner: Owner)
    requires Inv(f, owner) && f.ip.addrs[NDIRECT] != 0
    ensures f.ip.addrs[NDIRECT] in owner && owner[f.ip.addrs[NDIRECT]] == (f.ip.inum, INDIRECT)
    ensures DataStart(f.sb) <= f.ip.addrs[NDIRECT] < f.sb.size
  {
    assert Slot(f, f.ip.inum, INDIRECT) == f.ip.addrs[NDIRECT];
  }

  lemma AllocEntryBlocks(f: FileSys, owner: Owner, b: Word, j: nat)
    requires Free(f, owner, b) && j < NINDIRECT && f.ip.addrs[NDIRECT] != 0
    ensures f.ip.addrs[NDIRECT] < f.sb.size && Shape(AllocEntry(f, b, j))
    ensures forall x :: 0 <= x < f.sb.size ==> (Bit(AllocEntry(f, b, j), x) <==> Bit(f, x) || x == b)
    ensures BlocksKept(f, AllocEntry(f, b, j), owner)
  {
    hide Marked, Filled, Alloc, Bit, SetWord;
    IndirectOwned(f, owner);
    FreeFacts(f, owner, b);
    var ind := f.ip.addrs[NDIRECT];
    var g := AllocEntry(f, b, j);
    forall x | 0 <= x < f.sb.size
      ensures Bit(g, x) <==> Bit(f, x) || x == b
    {
      AllocBits(f, owner, b, x);
      BitAfterWrite(Alloc(f, b), ind, g.blocks[ind], x);
    }
    forall x | x in owner && owner[x].1 != INDIRECT && x < f.sb.size
      ensures g.blocks[x] == f.blocks[x]
    {
      AllocBlocks(f, owner, b, x);
    }
  }

  lemma AllocEntrySlots(f: FileSys, owner: Owner, b: Word, j: nat)
    requires Free(f, owner, b) && f.dead == 0 && j < NINDIRECT
    requires f.ip.addrs[NDIRECT] != 0 && f.ip.addrs[NDIRECT] < f.sb.size && Slot(f, f.ip.inum, 13 + j) == 0
    requires f.ip.addrs[NDIRECT] as nat in owner && owner[f.ip.addrs[NDIRECT]] == (f.ip.inum, INDIRECT)
    ensures SlotsKept(f, AllocEntry(f, b, j), f.ip.inum, 13 + j)
    ensures SizesKept(f, AllocEntry(f, b, j))
    ensures Slot(AllocEntry(f, b, j), f.ip.inum, 13 + j) == b
  {
    hide Owned, Marked, Filled, GetBit, Slot, Size;
    var g := AllocEntry(f, b, j);
    forall i, s | 0 <= i < f.sb.ninodes && 0 <= s < SLOTS
      ensures Slot(g, i, s) == if i == f.ip.inum && s == 13 + j then b else Slot(f, i, s)
      ensures Size(g, i) == Size(f, i)
    {
      AllocEntrySlot(f, owner, b, j, i, s);
    }
    forall i | 0 <= i < f.sb.ninodes && i != f.ip.inum
      ensures Size(g, i) == Size(f, i)
    {
      assert Slot(g, i, 0) == Slot(f, i, 0);
    }
  }

  lemma AllocEntrySlot(f: FileSys, owner: Owner, b: Word, j: nat, i: nat, s: nat)
    requires Free(f, owner, b) && f.dead == 0 && j < NINDIRECT && i < f.sb.ninodes && s < SLOTS
    requires f.ip.addrs[NDIRECT] != 0 && f.ip.addrs[NDIRECT] < f.sb.size && Slot(f, f.ip.inum, 13 + j) == 0
    requires f.ip.addrs[NDIRECT] as nat in owner && owner[f.ip.addrs[NDIRECT]] == (f.ip.inum, INDIRECT)
    ensures Slot(AllocEntry(f, b, j), i, s) == if i == f.ip.inum && s == 13 + j then b else Slot(f, i, s)
    ensures Size(AllocEntry(f, b, j), i) == Size(f, i)
  {
    var ind := f.ip.addrs[NDIRECT];
    var g := AllocEntry(f, b, j);
    FreeFacts(f, owner, b);
    AllocBlocks(f, owner, b, ind);
    AllocSlots(f, owner, b, i, s);
    hide Marked, Filled, GetBit, SetBit, Bit;
    if i == f.ip.inum {
      if s > NDIRECT {
        GetSetWord(f.blocks[ind], j, b, s - 13);
      }
    } else {
      assert Slot(f, i, INDIRECT) == Addr(f, i, NDIRECT);
      SlotAfterWrite(Alloc(f, b), ind, g.blocks[ind], i, s);
    }
  }

  // ----- bmap -----

  /** What bmap may do besides finding block bn: give blocks to the locked inode. */
  ghost predicate Grown(f: FileSys, fo: Owner, g: FileSys, go: Owner) {
    && Inv(f, fo) && Inv(g, go) && SizesKept(f, g) && f.dead == 0 && g.dead == 0
    && g.ip == f.ip.(addrs := g.ip.addrs)
    && (f.ip.addrs[NDIRECT] != 0 ==> g.ip.addrs[NDIRECT] == f.ip.addrs[NDIRECT])
    && (forall i :: 0 <= i < f.sb.ninodes ==> DataKept(f, g, i))
  }

  /** The effect of bmap(ip, bn): block bn is there; if it was not, it is a fresh zeroed one. */
  ghost predicate Mapped(f: FileSys, fo: Owner, g: FileSys, go: Owner, bn: nat) {
    && Grown(f, fo, g, go) && bn < MAXFILE
    && Data(g, f.ip.inum, bn) != 0
    && (forall k :: 0 <= k < MAXFILE && k != bn ==> Data(g, f.ip.inum, k) == Data(f, f.ip.inum, k))
    && (Data(f, f.ip.inum, bn) != 0 ==> g == f && go == fo)
    && (Data(f, f.ip.inum, bn) == 0 ==>
          Data(g, f.ip.inum, bn) < g.sb.size && g.blocks[Data(g, f.ip.inum, bn)] == ZERO_BLOCK)
  }

  lemma GrownInv(f: FileSys, fo: Owner, g: FileSys, go: Owner)
    requires Grown(f, fo, g, go)
    ensures Inv(g, go)
  {
  }

  lemma MappedAlready(f: FileSys, fo: Owner, bn: nat)
    requires Inv(f, fo) && f.dead == 0 && bn < MAXFILE && Data(f, f.ip.inum, bn) != 0
    ensures Mapped(f, fo, f, fo, bn)
  {
    forall i | 0 <= i < f.sb.ninodes
      ensures DataKept(f, f, i)
    {
      SelfKept(f, fo, i);
    }
  }

  lemma SelfKept(f: FileSys, fo: Owner, i: nat)
    requires Inv(f, fo) && i < f.sb.ninodes
    ensures DataKept(f, f, i)
  {
    forall bn | 0 <= bn < MAXFILE && Data(f, i, bn) != 0
      ensures Data(f, i, bn) < f.sb.size
    {
      assert Data(f, i, bn) in fo;
    }
  }

  /** A fresh block in a data slot that was empty. */
  lemma DataSlotMaps(f: FileSys, fo: Owner, g: FileSys, go: Owner, bn: nat)
    requires Inv(f, fo) && Inv(g, go) && f.dead == 0 && g.dead == 0 && bn < MAXFILE
    requires SlotsKept(f, g, f.ip.inum, DataSlot(bn)) && SizesKept(f, g) && BlocksKept(f, g, fo)
    requires g.ip == f.ip.(addrs := g.ip.addrs)
    requires Data(f, f.ip.inum, bn) == 0 && Data(g, f.ip.inum, bn) != 0
    requires Data(g, f.ip.inum, bn) < g.sb.size && g.blocks[Data(g, f.ip.inum, bn)] == ZERO_BLOCK
    ensures Mapped(f, fo, g, go, bn)
  {
    hide Owned, Marked, Filled, BlocksKept;
    forall i | 0 <= i < f.sb.ninodes
      ensures DataKept(f, g, i)
    {
      AttachKeepsData(f, g, fo, DataSlot(bn), i);
    }
    assert Slot(g, f.ip.inum, INDIRECT) == Slot(f, f.ip.inum, INDIRECT);
  }

  /** A fresh indirect block. */
  lemma IndirectGrows(f: FileSys, fo: Owner, b: Word)
    requires Free(f, fo, b) && f.dead == 0 && f.ip.addrs[NDIRECT] == 0
    ensures var g := AllocDirect(f, b, NDIRECT);
            var go := fo[b := (f.ip.inum, INDIRECT)];
            && Grown(f, fo, g, go) && g.ip.addrs[NDIRECT] != 0
            && (forall k :: 0 <= k < MAXFILE ==> Data(g, f.ip.inum, k) == Data(f, f.ip.inum, k))
            && forall x :: 0 <= x < f.sb.size ==> (Bit(g, x) <==> Bit(f, x) || x == b)
  {
    hide Owned, Marked, Filled, BlocksKept;
    AllocDirectKeeps(f, fo, b, NDIRECT);
    var g := AllocDirect(f, b, NDIRECT);
    forall i | 0 <= i < f.sb.ninodes
      ensures DataKept(f, g, i)
    {
      AttachKeepsData(f, g, fo, NDIRECT, i);
    }
  }

  /** bmap through an indirect block that was fresh, too. */
  lemma GrownThenMapped(f: FileSys, fo: Owner, g: FileSys, go: Owner, h: FileSys, ho: Owner, bn: nat)
    requires Grown(f, fo, g, go) && Mapped(g, go, h, ho, bn)
    requires forall k :: 0 <= k < MAXFILE ==> Data(g, f.ip.inum, k) == Data(f, f.ip.inum, k)
    requires Data(f, f.ip.inum, bn) == 0
    ensures Mapped(f, fo, h, ho, bn)
  {
    hide Owned, Marked, Filled, Slot, Size;
    forall i | 0 <= i < f.sb.ninodes
      ensures DataKept(f, h, i)
    {
      DataKeptTrans(f, g, h, i);
    }
  }

  // ----- writei: one block of data -----

  /** memmove into the bn-th block of the locked inode and log_write. */
  function PutData(f: FileSys, bn: nat, block: Block): (g: FileSys)
    requires Shape(f) && bn < MAXFILE && Data(f, f.ip.inum, bn) < f.sb.size
  {
    WriteBlock(f, Data(f, f.ip.inum, bn), block)
  }

  /** Writing a data block in use changes no pointer, no bit and no other data block. */
  lemma PutDataKeeps(f: FileSys, owner: Owner, bn: nat, block: Block)
    requires Inv(f, owner) && bn < MAXFILE && Data(f, f.ip.inum, bn) != 0
    ensures Data(f, f.ip.inum, bn) < f.sb.size
    ensures var g := PutData(f, bn, block);
            && Inv(g, owner) && SizesKept(f, g)
            && (forall i, s :: 0 <= i < f.sb.ninodes && 0 <= s < SLOTS ==> Slot(g, i, s) == Slot(f, i, s))
            && (forall i, k | 0 <= i < f.sb.ninodes && 0 <= k < MAXFILE && (i != f.ip.inum || k != bn) ::
                  Data(f, i, k) != 0 ==>
                  Data(f, i, k) < f.sb.size && g.blocks[Data(f, i, k)] == f.blocks[Data(f, i, k)])
            && forall x :: 0 <= x < f.sb.size ==> (Bit(g, x) <==> Bit(f, x))
  {
    var d := Data(f, f.ip.inum, bn);
    assert d in owner && owner[d] == (f.ip.inum, DataSlot(bn));
    var g := PutData(f, bn, block);
    PutDataSlots(f, owner, bn, block);
    PutDataInv(f, owner, bn, block);
    forall i, k | 0 <= i < f.sb.ninodes && 0 <= k < MAXFILE && (i != f.ip.inum || k != bn) && Data(f, i, k) != 0
      ensures Data(f, i, k) < f.sb.size && g.blocks[Data(f, i, k)] == f.blocks[Data(f, i, k)]
    {
      var x := Data(f, i, k);
      assert x in owner && owner[x] == (i, DataSlot(k));
    }
  }

  lemma PutDataSlots(f: FileSys, owner: Owner, bn: nat, block: Block)
    requires Inv(f, owner) && bn < MAXFILE && Data(f, f.ip.inum, bn) != 0
    ensures DataStart(f.sb) <= Data(f, f.ip.inum, bn) < f.sb.size
    ensures var g := PutData(f, bn, block);
            && SizesKept(f, g)
            && forall i, s :: 0 <= i < f.sb.ninodes && 0 <= s < SLOTS ==> Slot(g, i, s) == Slot(f, i, s)
  {
    var d := Data(f, f.ip.inum, bn);
    assert d in owner && owner[d] == (f.ip.inum, DataSlot(bn));
    var g := PutData(f, bn, block);
    forall i, s | 0 <= i < f.sb.ninodes && 0 <= s < SLOTS
      ensures Slot(g, i, s) == Slot(f, i, s) && Size(g, i) == Size(f, i)
    {
      assert Slot(f, i, INDIRECT) == Addr(f, i, NDIRECT);
      SlotAfterWrite(f, d, block, i, s);
    }
    forall i | 0 <= i < f.sb.ninodes && i != f.ip.inum
      ensures Size(g, i) == Size(f, i)
    {
      assert Slot(g, i, 0) == Slot(f, i, 0);
    }
  }

  lemma PutDataInv(f: FileSys, owner: Owner, bn: nat, block: Block)
    requires Inv(f, owner) && bn < MAXFILE && DataStart(f.sb) <= Data(f, f.ip.inum, bn) < f.sb.size
    requires var g := PutData(f, bn, block);
             && SizesKept(f, g)
             && forall i, s :: 0 <= i < f.sb.ninodes && 0 <= s < SLOTS ==> Slot(g, i, s) == Slot(f, i, s)
    ensures Inv(PutData(f, bn, block), owner)
    ensures forall x :: 0 <= x < f.sb.size ==> (Bit(PutData(f, bn, block), x) <==> Bit(f, x))
  {
    hide Slot, Bit, Size;
    var g := PutData(f, bn, block);
    forall x | 0 <= x < f.sb.size
      ensures Bit(g, x) <==> Bit(f, x)
    {
      BitAfterWrite(f, Data(f, f.ip.inum, bn), block, x);
    }
    forall i | 0 <= i < g.sb.ninodes && i != g.ip.inum
      ensures Filled(g, i, Size(g, i))
    {
      forall k | 0 <= k < MAXFILE && k * BSIZE < Size(g, i)
        ensures Data(g, i, k) != 0
      {
        assert Data(f, i, k) != 0;
      }
    }
  }

  // ----- iupdate -----

  /** Word w of the dinode iupdate writes. */
  function InodeField(ip: Inode, w: nat): Word
    requires w < 16 && |ip.addrs| == NDIRECT + 1
  {
    if w == 0 then ip.meta0 else if w == 1 then ip.meta1 else if w == 2 then ip.size else ip.addrs[w - 3]
  }

  /** The first n words of dinode ip are in place. */
  function PutInode(b: Block, ip: Inode, n: nat): Block
    requires n <= 16 && |ip.addrs| == NDIRECT + 1
  {
    if n == 0 then b else SetWord(PutInode(b, ip, n - 1), InodeWord(ip.inum, n - 1), InodeField(ip, n - 1))
  }

  lemma {:induction false} PutInodeAt(b: Block, ip: Inode, n: nat, k: nat)
    requires n <= 16 && |ip.addrs| == NDIRECT + 1 && k < WORDS
    ensures GetWord(PutInode(b, ip, n), k)
            == if InodeWord(ip.inum, 0) <= k < InodeWord(ip.inum, 0) + n then InodeField(ip, k - InodeWord(ip.inum, 0))
               else GetWord(b, k)
  {
    if n > 0 {
      PutInodeAt(b, ip, n - 1, k);
      GetSetWord(PutInode(b, ip, n - 1), InodeWord(ip.inum, n - 1), InodeField(ip, n - 1), k);
    }
  }

  function Updated(f: FileSys): (g: FileSys)
    requires Shape(f)
  {
    var ib := InodeBlock(f.ip.inum);
    WriteBlock(f, ib, PutInode(f.blocks[ib], f.ip, 16))
  }

  /** iupdate writes this inode and disturbs no other inode of the block. */
  lemma UpdatedWords(f: FileSys, i: nat, w: nat)
    requires Shape(f) && i < f.sb.ninodes && w < 16
    ensures Shape(Updated(f))
    ensures DiskWord(Updated(f), i, w) == if i == f.ip.inum then InodeField(f.ip, w) else DiskWord(f, i, w)
  {
    var ib := InodeBlock(f.ip.inum);
    InodeBlocksFirst(f, f.ip.inum);
    if InodeBlock(i) == ib {
      PutInodeAt(f.blocks[ib], f.ip, 16, InodeWord(i, w));
    }
  }

  lemma UpdatedKeeps(f: FileSys, owner: Owner)
    requires Inv(f, owner)
    ensures var g := Updated(f);
            && Inv(g, owner) && Synced(g) && SizesKept(f, g)
            && (forall i, s :: 0 <= i < f.sb.ninodes && 0 <= s < SLOTS ==> Slot(g, i, s) == Slot(f, i, s))
            && (forall b :: DataStart(f.sb) <= b < f.sb.size ==> g.blocks[b] == f.blocks[b])
            && forall x :: 0 <= x < f.sb.size ==> (Bit(g, x) <==> Bit(f, x))
  {
    var g := Updated(f);
    UpdatedSlots(f, owner);
    UpdatedInv(f, owner);
    forall w | 0 <= w < 16
      ensures DiskWord(g, f.ip.inum, w) == InodeField(f.ip, w)
    {
      UpdatedWords(f, f.ip.inum, w);
    }
  }

  lemma UpdatedSlot(f: FileSys, owner: Owner, i: nat, s: nat)
    requires Inv(f, owner) && i < f.sb.ninodes && s < SLOTS
    ensures Slot(Updated(f), i, s) == Slot(f, i, s)
  {
    UpdatedAddr(f, i, if s <= NDIRECT then s else NDIRECT);
    IndirectAbove(f, owner, i);
    InodeBlocksFirst(f, f.ip.inum);
    hide Inv, Addr, GetWord;
  }

  lemma UpdatedAddr(f: FileSys, i: nat, s: nat)
    requires Shape(f) && i < f.sb.ninodes && s <= NDIRECT
    ensures Shape(Updated(f)) && Addr(Updated(f), i, s) == Addr(f, i, s)
  {
    UpdatedWords(f, i, 3 + s);
    hide DiskWord;
  }

  lemma IndirectAbove(f: FileSys, owner: Owner, i: nat)
    requires Inv(f, owner) && i < f.sb.ninodes
    ensures Addr(f, i, NDIRECT) == 0 || DataStart(f.sb) <= Addr(f, i, NDIRECT)
  {
    hide Marked;
    assert Slot(f, i, INDIRECT) == Addr(f, i, NDIRECT);
  }

  lemma UpdatedSlots(f: FileSys, owner: Owner)
    requires Inv(f, owner)
    ensures var g := Updated(f);
            && SizesKept(f, g)
            && (forall i, s :: 0 <= i < f.sb.ninodes && 0 <= s < SLOTS ==> Slot(g, i, s) == Slot(f, i, s))
            && (forall b :: BitmapStart(f.sb) <= b < f.sb.size ==> g.blocks[b] == f.blocks[b])
  {
    var g := Updated(f);
    InodeBlocksFirst(f, f.ip.inum);
    forall i, s | 0 <= i < f.sb.ninodes && 0 <= s < SLOTS
      ensures Slot(g, i, s) == Slot(f, i, s)
    {
      UpdatedSlot(f, owner, i, s);
    }
    hide Slot, Inv;
    forall i | 0 <= i < f.sb.ninodes && i != f.ip.inum
      ensures Size(g, i) == Size(f, i)
    {
      UpdatedWords(f, i, 2);
    }
  }

  lemma UpdatedInv(f: FileSys, owner: Owner)
    requires Inv(f, owner)
    requires var g := Updated(f);
             && SizesKept(f, g)
             && (forall i, s :: 0 <= i < f.sb.ninodes && 0 <= s < SLOTS ==> Slot(g, i, s) == Slot(f, i, s))
             && (forall b :: BitmapStart(f.sb) <= b < f.sb.size ==> g.blocks[b] == f.blocks[b])
    ensures Inv(Updated(f), owner)
    ensures forall x :: 0 <= x < f.sb.size ==> (Bit(Updated(f), x) <==> Bit(f, x))
  {
    hide Slot, Size, PutInode;
    var g := Updated(f);
    forall x | 0 <= x < f.sb.size
      ensures Bit(g, x) <==> Bit(f, x)
    {
      BitmapBlocksNext(f, x);
    }
    forall i | 0 <= i < g.sb.ninodes && i != g.ip.inum
      ensures Filled(g, i, Size(g, i))
    {
      forall k | 0 <= k < MAXFILE && k * BSIZE < Size(g, i)
        ensures Data(g, i, k) != 0
      {
        assert Data(f, i, k) != 0;
      }
    }
  }

  // ----- itrunc -----

  /** bfree(ip->addrs[s]); ip->addrs[s] = 0. */
  function FreeDirect(f: FileSys, s: nat): (g: FileSys)
    requires Shape(f) && s <= NDIRECT && f.ip.addrs[s] < f.sb.size
  {
    var g := MarkBit(f, f.ip.addrs[s], false);
    g.(ip := g.ip.(addrs := g.ip.addrs[s := 0]), dead := if s == NDIRECT then 0 else g.dead)
  }

  /** bfree of entry dead of the indirect block. */
  function FreeEntry(f: FileSys): (g: FileSys)
    requires Shape(f) && f.dead < NINDIRECT && Slot(f, f.ip.inum, 13 + f.dead) < f.sb.size
  {
    var b := Slot(f, f.ip.inum, 13 + f.dead);
    var g := if b == 0 then f else MarkBit(f, b, false);
    g.(dead := f.dead + 1)
  }

  /** Clearing a bit of the bitmap changes no pointer. */
  lemma UnmarkSlots(f: FileSys, owner: Owner, b: nat, i: nat, s: nat)
    requires Inv(f, owner) && b < f.sb.size && i < f.sb.ninodes && s < SLOTS
    ensures Shape(MarkBit(f, b, false))
    ensures Slot(MarkBit(f, b, false), i, s) == Slot(f, i, s)
    ensures Size(MarkBit(f, b, false), i) == Size(f, i)
  {
    BitmapBlocksNext(f, b);
    assert Slot(f, i, INDIRECT) == Addr(f, i, NDIRECT);
    var bm := BitmapBlock(f.sb, b);
    SlotAfterWrite(f, bm, MarkBit(f, b, false).blocks[bm], i, s);
  }

  lemma SlotInUse(f: FileSys, owner: Owner, s: nat)
    requires Inv(f, owner) && s < SLOTS && Slot(f, f.ip.inum, s) != 0
    ensures Slot(f, f.ip.inum, s) in owner && owner[Slot(f, f.ip.inum, s)] == (f.ip.inum, s)
    ensures DataStart(f.sb) <= Slot(f, f.ip.inum, s) < f.sb.size && Bit(f, Slot(f, f.ip.inum, s))
  {
  }

  lemma UnmarkKeeps(f: FileSys, owner: Owner, b: nat)
    requires Inv(f, owner) && b < f.sb.size
    ensures var g := MarkBit(f, b, false);
            && SizesKept(f, g) && BlocksKept(f, g, owner)
            && (forall i, s :: 0 <= i < f.sb.ninodes && 0 <= s < SLOTS ==> Slot(g, i, s) == Slot(f, i, s))
            && (forall x :: 0 <= x < f.sb.size ==> (Bit(g, x) <==> Bit(f, x) && x != b))
            && (forall x :: DataStart(f.sb) <= x < f.sb.size ==> g.blocks[x] == f.blocks[x])
  {
    hide Slot, Bit, Size;
    BitmapBlocksNext(f, b);
    var g := MarkBit(f, b, false);
    forall i, s | 0 <= i < f.sb.ninodes && 0 <= s < SLOTS
      ensures Slot(g, i, s) == Slot(f, i, s)
    {
      UnmarkSlots(f, owner, b, i, s);
    }
    forall i | 0 <= i < f.sb.ninodes && i != f.ip.inum
      ensures Size(g, i) == Size(f, i)
    {
      UnmarkSlots(f, owner, b, i, 0);
    }
    forall x | 0 <= x < f.sb.size
      ensures Bit(g, x) <==> Bit(f, x) && x != b
    {
      BitAfterMark(f, b, false, x);
    }
  }

  /** Only memory differs: the pointer s0 is cleared, or the entry after it counts as freed. */
  lemma FreeDirectSlots(f: FileSys, owner: Owner, s0: nat)
    requires Inv(f, owner) && s0 <= NDIRECT && f.ip.addrs[s0] != 0 && f.ip.addrs[s0] < f.sb.size
    requires s0 == NDIRECT ==> f.dead == NINDIRECT
    ensures SlotsKept(f, FreeDirect(f, s0), f.ip.inum, s0)
    ensures SizesKept(f, FreeDirect(f, s0)) && BlocksKept(f, FreeDirect(f, s0), owner)
    ensures forall x :: 0 <= x < f.sb.size ==> (Bit(FreeDirect(f, s0), x) <==> Bit(f, x) && x != f.ip.addrs[s0])
  {
    hide Owned, Marked, Filled, GetBit;
    UnmarkKeeps(f, owner, f.ip.addrs[s0]);
    var g, h := FreeDirect(f, s0), MarkBit(f, f.ip.addrs[s0], false);
    forall i, s | 0 <= i < f.sb.ninodes && 0 <= s < SLOTS && (i != f.ip.inum || s != s0)
      ensures Slot(g, i, s) == Slot(f, i, s)
    {
      assert Slot(h, i, s) == Slot(f, i, s);
    }
    forall x | 0 <= x < f.sb.size
      ensures Bit(g, x) <==> Bit(f, x) && x != f.ip.addrs[s0]
    {
      assert Bit(h, x) <==> Bit(f, x) && x != f.ip.addrs[s0];
    }
  }

  /** Freeing a direct block, or the emptied indirect block, gives up exactly that block. */
  lemma UnmarkKeepsLog(f: FileSys, owner: Owner, b: nat, s: nat, g: FileSys)
    requires Inv(f, owner) && s < SLOTS && b == Slot(f, f.ip.inum, s) != 0 && b < f.sb.size
    requires SameFrame(f, g) && g.blocks == MarkBit(f, b, false).blocks
    ensures LogBitsKept(f, g)
  {
    assert b in owner;
    assert b < LogStart(f.sb);
    hide Owned, Marked, Filled, Slot;
    forall x | LogStart(f.sb) <= x < f.sb.size
      ensures Bit(g, x) <==> Bit(f, x)
    {
      BitAfterMark(f, b, false, x);
      assert Bit(g, x) <==> Bit(MarkBit(f, b, false), x);
    }
  }

  lemma FreeDirectKeeps(f: FileSys, owner: Owner, s0: nat)
    requires Inv(f, owner) && s0 <= NDIRECT && f.ip.addrs[s0] != 0
    requires s0 == NDIRECT ==> f.dead == NINDIRECT
    ensures f.ip.addrs[s0] < f.sb.size && Bit(f, f.ip.addrs[s0])
    ensures var g := FreeDirect(f, s0);
            && Inv(g, owner - {f.ip.addrs[s0] as nat})
            && SlotsKept(f, g, f.ip.inum, s0) && SizesKept(f, g) && BlocksKept(f, g, owner) && LogBitsKept(f, g)
  {
    hide Owned, Marked, Filled, SlotsKept, SizesKept, BlocksKept, Bit;
    SlotInUse(f, owner, s0);
    FreeDirectSlots(f, owner, s0);
    UnmarkKeepsLog(f, owner, f.ip.addrs[s0], s0, FreeDirect(f, s0));
    Detach(f, FreeDirect(f, s0), owner, f.ip.addrs[s0], s0);
  }

  lemma FreeEntrySlots(f: FileSys, owner: Owner)
    requires Inv(f, owner) && f.dead < NINDIRECT && f.ip.addrs[NDIRECT] != 0
    requires Slot(f, f.ip.inum, 13 + f.dead) < f.sb.size
    ensures SlotsKept(f, FreeEntry(f), f.ip.inum, 13 + f.dead)
    ensures SizesKept(f, FreeEntry(f)) && BlocksKept(f, FreeEntry(f), owner)
    ensures forall x :: 0 <= x < f.sb.size ==>
              (Bit(FreeEntry(f), x) <==> Bit(f, x) && (x != Slot(f, f.ip.inum, 13 + f.dead) || x == 0))
  {
    hide Owned, Marked, Filled, GetBit;
    var b := Slot(f, f.ip.inum, 13 + f.dead);
    UnmarkKeeps(f, owner, b);
    var g, h := FreeEntry(f), if b == 0 then f else MarkBit(f, b, false);
    forall i, s | 0 <= i < f.sb.ninodes && 0 <= s < SLOTS && (i != f.ip.inum || s != 13 + f.dead)
      ensures Slot(g, i, s) == Slot(f, i, s)
    {
      assert Slot(h, i, s) == Slot(f, i, s);
    }
    forall x | 0 <= x < f.sb.size
      ensures Bit(g, x) <==> Bit(f, x) && (x != b || x == 0)
    {
      assert Bit(h, x) <==> Bit(f, x) && (x != b || b == 0);
    }
  }

  /** Freeing one entry of the indirect block gives up exactly its block, if it has one. */
  lemma FreeEntryKeeps(f: FileSys, owner: Owner)
    requires Inv(f, owner) && f.dead < NINDIRECT && f.ip.addrs[NDIRECT] != 0
    ensures var b := Slot(f, f.ip.inum, 13 + f.dead);
            b < f.sb.size && (b != 0 ==> Bit(f, b))
    ensures var b := Slot(f, f.ip.inum, 13 + f.dead);
            var g := FreeEntry(f);
            && Inv(g, if b == 0 then owner else owner - {b as nat})
            && SlotsKept(f, g, f.ip.inum, 13 + f.dead) && SizesKept(f, g) && BlocksKept(f, g, owner)
            && LogBitsKept(f, g)
  {
    hide Owned, Marked, Filled, SlotsKept, SizesKept, BlocksKept, Bit;
    var s0 := 13 + f.dead;
    var b: nat := Slot(f, f.ip.inum, s0);
    if b != 0 {
      SlotInUse(f, owner, s0);
      UnmarkKeepsLog(f, owner, b, s0, FreeEntry(f));
      FreeEntrySlots(f, owner);
      Detach(f, FreeEntry(f), owner, b, s0);
    } else {
      FreeEntrySlots(f, owner);
      NothingDetached(f, FreeEntry(f), owner, s0);
    }
  }

  lemma NothingDetached(f: FileSys, g: FileSys, owner: Owner, s0: nat)
    requires Inv(f, owner) && s0 < SLOTS && SlotsKept(f, g, f.ip.inum, s0) && SizesKept(f, g)
    requires Slot(f, f.ip.inum, s0) == 0 && Slot(g, f.ip.inum, s0) == 0
    requires forall x :: 0 <= x < f.sb.size ==> (Bit(g, x) <==> Bit(f, x))
    ensures Inv(g, owner)
  {
    hide Slot, Bit, Size, Data, BitmapBlock, InodeBlock;
    forall i | 0 <= i < g.sb.ninodes && i != g.ip.inum
      ensures Filled(g, i, Size(g, i))
    {
      FilledKept(f, g, i, s0);
    }
  }
}
