/** writei as a sequence of block writes, and what the file and all other files contain after it. */
module FileWriting {
  import opened Basics
  import opened Blocks
  import opened FileState
  import opened FileSteps

  /** Byte k of the file when src has been written at off up to position pos. */
  function WrittenByte(f0: FileSys, off: nat, src: seq<Byte>, pos: nat, k: nat): Byte
    requires Shape(f0) && off <= pos <= off + |src| && k < MAXFILE * BSIZE
  {
    if off <= k < pos then src[k - off] else ByteAt(f0, f0.ip.inum, k)
  }

  /** The state of writei: everything before pos is written, nothing else has changed. */
  ghost predicate Written(f0: FileSys, f: FileSys, owner: Owner, off: nat, src: seq<Byte>, pos: nat) {
    && Shape(f0) && Inv(f, owner) && f.dead == 0 && SizesKept(f0, f)
    && f.ip == f0.ip.(addrs := f.ip.addrs)
    && (f0.ip.addrs[NDIRECT] != 0 ==> f.ip.addrs[NDIRECT] == f0.ip.addrs[NDIRECT])
    && (forall i :: 0 <= i < f0.sb.ninodes && i != f0.ip.inum ==> DataKept(f0, f, i))
    && off <= pos <= off + |src| <= MAXFILE * BSIZE && off <= f0.ip.size
    && Filled(f, f0.ip.inum, Max(f0.ip.size, pos))
    && (pos <= f0.ip.size ==> f.ip == f0.ip && Synced(f))
    && (forall k :: 0 <= k < Max(f0.ip.size, pos) ==>
          ByteAt(f, f0.ip.inum, k) == WrittenByte(f0, off, src, pos, k))
  }

  lemma WrittenStart(f: FileSys, owner: Owner, off: nat, src: seq<Byte>)
    requires Good(f, owner) && off <= f.ip.size && off + |src| <= MAXFILE * BSIZE
    ensures Written(f, f, owner, off, src, off)
  {
    forall i | 0 <= i < f.sb.ninodes
      ensures DataKept(f, f, i)
    {
      SelfKept(f, owner, i);
    }
  }

  /** memmove(bp->data + o, bytes, m). */
  function Overwrite(block: Block, o: nat, bytes: seq<Byte>): Block
    requires o + |bytes| <= BSIZE
  {
    block[..o] + bytes + block[o + |bytes|..]
  }

  /** bmap keeps every byte the file has so far. */
  lemma MappedKeepsBytes(f0: FileSys, f: FileSys, fo: Owner, off: nat, src: seq<Byte>, pos: nat,
                         g: FileSys, go: Owner)
    requires Written(f0, f, fo, off, src, pos) && Mapped(f, fo, g, go, pos / BSIZE)
    ensures forall k :: 0 <= k < Max(f0.ip.size, pos) ==>
              ByteAt(g, f0.ip.inum, k) == WrittenByte(f0, off, src, pos, k)
    ensures forall bn :: 0 <= bn < MAXFILE && bn * BSIZE < Max(f0.ip.size, pos) ==> Data(g, f0.ip.inum, bn) != 0
  {
    hide Synced, Owned, Marked, Slot;
    var i := f0.ip.inum;
    assert DataKept(f, g, i);
    forall bn | 0 <= bn < MAXFILE && bn * BSIZE < Max(f0.ip.size, pos)
      ensures Data(f, i, bn) != 0 && Data(g, i, bn) == Data(f, i, bn)
    {
    }
    forall k | 0 <= k < Max(f0.ip.size, pos)
      ensures ByteAt(g, i, k) == WrittenByte(f0, off, src, pos, k)
    {
      assert Data(f, i, k / BSIZE) != 0;
    }
  }

  /** The bytes after one block write. */
  lemma ByteAfterPut(g: FileSys, go: Owner, bn: nat, block: Block, k: nat)
    requires Inv(g, go) && bn < MAXFILE && Data(g, g.ip.inum, bn) != 0 && k < MAXFILE * BSIZE
    requires Data(g, g.ip.inum, k / BSIZE) != 0
    ensures Data(g, g.ip.inum, bn) < g.sb.size
    ensures Shape(PutData(g, bn, block))
    ensures ByteAt(PutData(g, bn, block), g.ip.inum, k)
            == if k / BSIZE == bn then block[k % BSIZE] else ByteAt(g, g.ip.inum, k)
  {
    hide Owned, Marked, Filled, Slot, Size;
    PutDataKeeps(g, go, bn, block);
    var h := PutData(g, bn, block);
    assert Data(h, g.ip.inum, k / BSIZE) == Data(g, g.ip.inum, k / BSIZE);
  }

  ghost predicate Chunk(f0: FileSys, f: FileSys, fo: Owner, off: nat, src: seq<Byte>, pos: nat, g: FileSys,
                        go: Owner, m: nat) {
    && Written(f0, f, fo, off, src, pos) && Mapped(f, fo, g, go, pos / BSIZE)
    && 0 < m && pos + m <= off + |src| && pos % BSIZE + m <= BSIZE
  }

  /** The block that writei logs. */
  function ChunkBlock(g: FileSys, off: nat, src: seq<Byte>, pos: nat, m: nat): Block
    requires Shape(g) && pos < MAXFILE * BSIZE && Data(g, g.ip.inum, pos / BSIZE) < g.sb.size
    requires off <= pos && pos + m <= off + |src| && pos % BSIZE + m <= BSIZE
  {
    Overwrite(g.blocks[Data(g, g.ip.inum, pos / BSIZE)], pos % BSIZE, src[pos - off..pos - off + m])
  }

  lemma ChunkBytes(f0: FileSys, f: FileSys, fo: Owner, off: nat, src: seq<Byte>, pos: nat, g: FileSys, go: Owner,
                   m: nat, k: nat)
    requires Chunk(f0, f, fo, off, src, pos, g, go, m) && k < Max(f0.ip.size, pos + m)
    ensures Data(g, g.ip.inum, pos / BSIZE) < g.sb.size
    ensures var h := PutData(g, pos / BSIZE, ChunkBlock(g, off, src, pos, m));
            Shape(h) && k < MAXFILE * BSIZE && ByteAt(h, f0.ip.inum, k) == WrittenByte(f0, off, src, pos + m, k)
  {
    hide Owned, Marked, Synced, Slot, Size, DataKept;
    var bn := pos / BSIZE;
    MappedKeepsBytes(f0, f, fo, off, src, pos, g, go);
    GrownInv(f, fo, g, go);
    assert Data(g, g.ip.inum, k / BSIZE) != 0;
    ByteAfterPut(g, go, bn, ZERO_BLOCK, k);
    var block := ChunkBlock(g, off, src, pos, m);
    ByteAfterPut(g, go, bn, block, k);
    if k / BSIZE == bn {
      if pos <= k < pos + m {
        assert block[k % BSIZE] == src[k - off];
      } else {
        assert block[k % BSIZE] == g.blocks[Data(g, g.ip.inum, bn)][k % BSIZE] == ByteAt(g, g.ip.inum, k);
      }
    }
  }

  /** One round of writei's loop. */
  lemma ChunkWritten(f0: FileSys, f: FileSys, fo: Owner, off: nat, src: seq<Byte>, pos: nat, g: FileSys, go: Owner,
                     m: nat)
    requires Chunk(f0, f, fo, off, src, pos, g, go, m)
    ensures Data(g, g.ip.inum, pos / BSIZE) < g.sb.size
    ensures Written(f0, PutData(g, pos / BSIZE, ChunkBlock(g, off, src, pos, m)), go, off, src, pos + m)
  {
    hide Owned, Marked, Slot, Size, ByteAt, WrittenByte;
    var bn := pos / BSIZE;
    MappedKeepsBytes(f0, f, fo, off, src, pos, g, go);
    GrownInv(f, fo, g, go);
    PutDataKeeps(g, go, bn, ZERO_BLOCK);
    var block := ChunkBlock(g, off, src, pos, m);
    PutDataKeeps(g, go, bn, block);
    var h := PutData(g, bn, block);
    forall k | 0 <= k < Max(f0.ip.size, pos + m)
      ensures ByteAt(h, f0.ip.inum, k) == WrittenByte(f0, off, src, pos + m, k)
    {
      ChunkBytes(f0, f, fo, off, src, pos, g, go, m, k);
    }
    forall i | 0 <= i < f0.sb.ninodes && i != f0.ip.inum
      ensures DataKept(f0, h, i)
    {
      PutDataOthers(g, go, bn, block, i);
      DataKeptTrans(f0, f, g, i);
      DataKeptTrans(f0, g, h, i);
    }
    ChunkFilled(f0, f, fo, off, src, pos, g, go, m, h);
    if pos + m <= f0.ip.size {
      PutDataSynced(g, go, bn, block);
    }
  }

  lemma PutDataOthers(g: FileSys, go: Owner, bn: nat, block: Block, i: nat)
    requires Inv(g, go) && bn < MAXFILE && Data(g, g.ip.inum, bn) != 0 && i < g.sb.ninodes && i != g.ip.inum
    ensures Data(g, g.ip.inum, bn) < g.sb.size && DataKept(g, PutData(g, bn, block), i)
  {
    hide Owned, Marked, Filled, Slot, Size;
    PutDataKeeps(g, go, bn, block);
  }

  lemma PutDataSynced(g: FileSys, go: Owner, bn: nat, block: Block)
    requires Inv(g, go) && bn < MAXFILE && Data(g, g.ip.inum, bn) != 0 && Synced(g)
    ensures Data(g, g.ip.inum, bn) < g.sb.size && Shape(PutData(g, bn, block)) && Synced(PutData(g, bn, block))
  {
    SlotInUse(g, go, DataSlot(bn));
    InodeBlocksFirst(g, g.ip.inum);
  }

  lemma ChunkFilled(f0: FileSys, f: FileSys, fo: Owner, off: nat, src: seq<Byte>, pos: nat, g: FileSys, go: Owner,
                    m: nat, h: FileSys)
    requires Chunk(f0, f, fo, off, src, pos, g, go, m) && SameFrame(g, h)
    requires forall s :: 0 <= s < SLOTS ==> Slot(h, g.ip.inum, s) == Slot(g, g.ip.inum, s)
    ensures Filled(h, f0.ip.inum, Max(f0.ip.size, pos + m))
  {
    hide Owned, Marked, Slot, Size, ByteAt, WrittenByte;
    MappedKeepsBytes(f0, f, fo, off, src, pos, g, go);
    forall k | 0 <= k < MAXFILE && k * BSIZE < Max(f0.ip.size, pos + m)
      ensures Data(h, f0.ip.inum, k) != 0
    {
      assert k == pos / BSIZE || k * BSIZE < Max(f0.ip.size, pos);
      assert Data(g, f0.ip.inum, k) != 0;
    }
  }

  // ----- the end of writei -----

  /** writei's last statement before iupdate. */
  function Resized(f: FileSys, size: Word): (g: FileSys)
  {
    f.(ip := f.ip.(size := size))
  }

  lemma ResizedInv(f: FileSys, owner: Owner, size: Word)
    requires Inv(f, owner)
    ensures Inv(Resized(f, size), owner) && SizesKept(f, Resized(f, size))
    ensures forall x :: 0 <= x < f.sb.size ==> (Bit(Resized(f, size), x) <==> Bit(f, x))
    ensures forall i, s :: 0 <= i < f.sb.ninodes && 0 <= s < SLOTS ==> Slot(Resized(f, size), i, s) == Slot(f, i, s)
  {
    var g := Resized(f, size);
    forall i, s | 0 <= i < f.sb.ninodes && 0 <= s < SLOTS
      ensures Slot(g, i, s) == Slot(f, i, s)
    {
      assert Addr(g, i, NDIRECT) == Addr(f, i, NDIRECT);
    }
    forall x | 0 <= x < f.sb.size
      ensures Bit(g, x) <==> Bit(f, x)
    {
    }
    forall i | 0 <= i < g.sb.ninodes && i != g.ip.inum
      ensures Filled(g, i, Size(g, i))
    {
      assert Filled(f, i, Size(f, i)) && Size(g, i) == Size(f, i);
      forall k | 0 <= k < MAXFILE && k * BSIZE < Size(g, i)
        ensures Data(g, i, k) != 0
      {
        assert Data(f, i, k) != 0;
      }
    }
  }

  /** The state writei returns in. */
  function Finished(f: FileSys, off: nat, n: nat): (g: FileSys)
    requires Shape(f) && off + n <= MAXFILE * BSIZE
  {
    if n > 0 && off + n > f.ip.size then Updated(Resized(f, off + n)) else f
  }

  /** writei is a splice: the file is good again and holds the old contents with src written
      at off, and every other file is what it was. */
  lemma FinishedSplices(f0: FileSys, fo: Owner, f: FileSys, owner: Owner, off: nat, src: seq<Byte>)
    requires Good(f0, fo) && Written(f0, f, owner, off, src, off + |src|)
    ensures var g := Finished(f, off, |src|);
            && Good(g, owner) && SameFrame(f0, g)
            && g.ip.size == Max(f0.ip.size, off + |src|)
            && Contents(g, f0.ip.inum) == Splice(Contents(f0, f0.ip.inum), off, src)
            && forall i :: 0 <= i < f0.sb.ninodes && i != f0.ip.inum ==>
                 Size(f0, i) <= MAXFILE * BSIZE && Size(g, i) == Size(f0, i) && Contents(g, i) == Contents(f0, i)
  {
    hide Owned, Marked, Slot, Synced, ByteAt;
    var g := Finished(f, off, |src|);
    FinishedGood(f0, f, owner, off, src);
    forall k | 0 <= k < g.ip.size
      ensures Contents(g, f0.ip.inum)[k] == Splice(Contents(f0, f0.ip.inum), off, src)[k]
    {
      assert ByteAt(g, f0.ip.inum, k) == WrittenByte(f0, off, src, off + |src|, k);
    }
    forall i | 0 <= i < f0.sb.ninodes && i != f0.ip.inum
      ensures Size(f0, i) <= MAXFILE * BSIZE && Size(g, i) == Size(f0, i) && Contents(g, i) == Contents(f0, i)
    {
      DataKeptTrans(f0, f, g, i);
      ContentsKept(f0, g, i);
    }
  }

  lemma FinishedGood(f0: FileSys, f: FileSys, owner: Owner, off: nat, src: seq<Byte>)
    requires Written(f0, f, owner, off, src, off + |src|)
    ensures var g := Finished(f, off, |src|);
            && Good(g, owner) && SizesKept(f0, g)
            && g.ip.size == Max(f0.ip.size, off + |src|)
            && (forall i :: 0 <= i < f0.sb.ninodes && i != f0.ip.inum ==> DataKept(f, g, i))
            && (forall k :: 0 <= k < g.ip.size ==> ByteAt(g, f0.ip.inum, k) == ByteAt(f, f0.ip.inum, k))
  {
    hide Owned, Marked, Slot, Synced;
    var g := Finished(f, off, |src|);
    if |src| > 0 && off + |src| > f.ip.size {
      var r := Resized(f, off + |src|);
      ResizedInv(f, owner, off + |src|);
      UpdatedKeeps(r, owner);
      FinishedSame(f, owner, r, g);
    } else {
      forall i | 0 <= i < f0.sb.ninodes
        ensures DataKept(f, g, i)
      {
        SelfKept(f, owner, i);
      }
    }
  }

  lemma FinishedSame(f: FileSys, owner: Owner, r: FileSys, g: FileSys)
    requires Inv(f, owner) && SameFrame(f, r) && SameFrame(f, g)
    requires forall i, s :: 0 <= i < f.sb.ninodes && 0 <= s < SLOTS ==> Slot(r, i, s) == Slot(f, i, s)
    requires forall i, s :: 0 <= i < f.sb.ninodes && 0 <= s < SLOTS ==> Slot(g, i, s) == Slot(r, i, s)
    requires forall b :: DataStart(f.sb) <= b < f.sb.size ==> g.blocks[b] == f.blocks[b]
    ensures forall i :: 0 <= i < f.sb.ninodes ==> DataKept(f, g, i)
    ensures forall n :: 0 <= n && Filled(f, f.ip.inum, n) ==> Filled(g, f.ip.inum, n)
    ensures forall k :: 0 <= k < MAXFILE * BSIZE && Data(f, f.ip.inum, k / BSIZE) != 0 ==>
              ByteAt(g, f.ip.inum, k) == ByteAt(f, f.ip.inum, k)
  {
    hide Marked, Slot, Synced, Size;
    forall i, bn | 0 <= i < f.sb.ninodes && 0 <= bn < MAXFILE
      ensures Data(g, i, bn) == Data(f, i, bn)
      ensures Data(f, i, bn) != 0 ==> DataStart(f.sb) <= Data(f, i, bn) < f.sb.size
    {
      assert Slot(r, i, DataSlot(bn)) == Slot(f, i, DataSlot(bn));
    }
  }
}
