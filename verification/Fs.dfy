/** The block and inode operations of fs.c, run against the disk as bread shows it and a
    locked in-memory inode. */
module Fs {
  import opened Basics
  import opened Blocks
  import opened FileState
  import opened FileSteps
  import opened FileNeeds
  import opened FileWriting
  import opened FileTruncating
  import opened DiskLayout
  import opened RedoLog
  import opened Scripts
  import Transactions

  datatype Option<+T> = None | Some(value: T)

  /** The blocks as bread returns them: logged contents where there are any. */
  datatype Store = Store(blocks: seq<Block>)

  /** The blocks when the transaction began, and what has been done with buffers since. */
  datatype Tx = Tx(base: seq<Block>, ops: seq<Op>)

  /** What bmap comes to: a block, or a panic for want of one, or a sector of the log that balloc has
      taken for a free block (the run is not followed further), or the panic "out of range". */
  datatype MapResult = Block(b: Word) | NoBlocks | LogSector | OutOfRange

  /** What balloc's failure is, when no block is left below the log. */
  ghost function Short(f: FileSys): MapResult
    requires Shape(f)
  {
    if LogClear(f) then LogSector else NoBlocks
  }

  /** struct inode, while it is locked. */
  class MemInode {
    const inum: nat
    var meta0: Word
    var meta1: Word
    var size: Word
    var addrs: seq<Word>

    constructor (ip: Inode)
      ensures Value() == ip
    {
      inum, meta0, meta1, size, addrs := ip.inum, ip.meta0, ip.meta1, ip.size, ip.addrs;
    }

    ghost function Value(): Inode
      reads this
    {
      Inode(inum, meta0, meta1, size, addrs)
    }
  }

  class FileSystem {
    const sb: Super
    var disk: Store
    ghost var owner: Owner        // who owns each block in use
    ghost var tx: Tx              // the open transaction
    ghost var done: seq<seq<Op>>  // the transactions committed so far

    constructor (sb: Super, disk: Store, ghost owner: Owner)
      requires |disk.blocks| < 0x1_0000_0000
      ensures this.sb == sb && this.disk == disk && this.owner == owner && tx == Tx(disk.blocks, []) && Traced()
      ensures done == []
    {
      this.sb, this.disk, this.owner, tx, done := sb, disk, owner, Tx(disk.blocks, []), [];
    }

    /** The state as FileState sees it. */
    ghost function View(ip: MemInode): FileSys
      reads this, ip
    {
      FileSys(sb, disk.blocks, ip.Value(), 0)
    }

    // ----- buffers -----

    /** The operations are a script on the blocks of the beginning, and what bread shows is what it
        has logged. */
    ghost predicate Traced()
      reads this`disk, this`tx
    {
      && |disk.blocks| == |tx.base| < 0x1_0000_0000
      && Script(tx.base, tx.ops)
      && (forall i :: 0 <= i < |Puts(tx.ops)| ==> Puts(tx.ops)[i].sector < |tx.base|)
      && disk.blocks == Transactions.Apply(tx.base, Puts(tx.ops))
    }

    ghost function HeldNow(): set<Word>
      reads this`tx
    {
      Held(tx.ops)
    }

    /** Every sector read or logged in the transaction. */
    ghost function UsedNow(): set<Word>
      reads this`tx
    {
      Used(tx.ops)
    }

    ghost function Logged(): seq<Transactions.Write>
      reads this`tx
    {
      Puts(tx.ops)
    }

    /** The boot block and the super block. */
    ghost function Boot(): seq<Block>
      reads this`disk
    {
      disk.blocks[..Min(2, |disk.blocks|)]
    }

    /** begin_trans, once the previous transaction is committed. */
    method BeginTrans()
      requires |disk.blocks| < 0x1_0000_0000
      modifies this`tx
      ensures tx == Tx(disk.blocks, []) && Traced() && HeldNow() == {} && UsedNow() == {}
    {
      tx := Tx(disk.blocks, []);
    }

    /** commit_trans, with every buffer released. */
    method CommitTrans()
      requires Traced() && HeldNow() == {}
      modifies this`tx, this`done
      ensures done == old(done) + [old(tx).ops]
      ensures tx == Tx(disk.blocks, []) && Traced() && HeldNow() == {}
    {
      done := done + [tx.ops];
      tx := Tx(disk.blocks, []);
    }

    lemma TracedIs()
      requires Traced()
      ensures |disk.blocks| == |tx.base| < 0x1_0000_0000 && Script(tx.base, tx.ops)
      ensures forall i :: 0 <= i < |Puts(tx.ops)| ==> Puts(tx.ops)[i].sector < |tx.base|
      ensures disk.blocks == Transactions.Apply(tx.base, Puts(tx.ops))
      ensures HeldNow() == Held(tx.ops) && UsedNow() == Used(tx.ops)
    {
    }

    method Bread(b: Word) returns (data: Block)
      requires Traced() && b < |disk.blocks| && b !in HeldNow()
      modifies this`tx
      ensures Traced() && data == disk.blocks[b] && tx.base == old(tx.base)
      ensures HeldNow() == old(HeldNow()) + {b} && UsedNow() == old(UsedNow()) + {b} && Logged() == old(Logged())
    {
      data := disk.blocks[b];
      ScriptMore(tx.base, tx.ops, Take(b, data));
      tx := Tx(tx.base, tx.ops + [Take(b, data)]);
    }

    /** A change of a held buffer, and log_write. */
    method LogWrite(b: Word, block: Block)
      requires Traced() && b in HeldNow() && b < |disk.blocks|
      modifies this`disk, this`tx
      ensures Traced() && tx.base == old(tx.base)
      ensures disk == Store(old(disk.blocks)[b := block])
      ensures HeldNow() == old(HeldNow()) && UsedNow() == old(UsedNow()) + {b}
      ensures b >= 2 ==> Boot() == old(Boot())
    {
      ghost var w := Transactions.Write(b, block);
      ScriptMore(tx.base, tx.ops, Put(w));
      assert (Puts(tx.ops) + [w])[..|Puts(tx.ops)|] == Puts(tx.ops);
      disk := Store(disk.blocks[b := block]);
      tx := Tx(tx.base, tx.ops + [Put(w)]);
    }

    method Brelse(b: Word)
      requires Traced() && b in HeldNow()
      modifies this`tx
      ensures Traced() && tx.base == old(tx.base)
      ensures HeldNow() == old(HeldNow()) - {b} && UsedNow() == old(UsedNow()) + {b} && Logged() == old(Logged())
    {
      ScriptMore(tx.base, tx.ops, Give(b));
      tx := Tx(tx.base, tx.ops + [Give(b)]);
    }

    // ----- balloc, bfree, iupdate -----

    /** readsb; what the super block says is the constant sb. */
    method Readsb()
      requires Traced() && 1 < |disk.blocks| && 1 !in HeldNow()
      modifies this`tx
      ensures Traced() && tx.base == old(tx.base)
      ensures HeldNow() == old(HeldNow()) && UsedNow() == old(UsedNow()) + {1} && Logged() == old(Logged())
    {
      hide Traced, Logged;
      var bp := Bread(1);
      Brelse(1);
    }

    /** A zeroed block whose bit was clear, the first one; None is the panic "out of blocks". */
    method Balloc(ghost f: FileSys) returns (r: Option<Word>)
      requires Shape(f) && f.sb == sb && f.blocks == disk.blocks && Traced()
      requires forall h :: h in HeldNow() ==> DataStart(sb) <= h < sb.size && Bit(f, h)
      modifies this`disk, this`tx
      ensures Traced() && tx.base == old(tx.base) && HeldNow() == old(HeldNow())
      ensures r.None? ==>
                && disk == old(disk) && (forall x :: 0 <= x < sb.size ==> Bit(f, x))
                && UsedFor(old(UsedNow()), UsedNow(), sb, 1, 0)
      ensures r.Some? ==>
                && r.value < sb.size && !Bit(f, r.value) && (forall x :: 0 <= x < r.value ==> Bit(f, x))
                && disk.blocks == Alloc(f, r.value).blocks
                && UsedFor(old(UsedNow()), UsedNow(), sb, r.value, 0)
      ensures (r.Some? ==> r.value >= 2) ==> Boot() == old(Boot())
    {
      hide Bit, Alloc, Traced, HeldNow, UsedNow, FileSystem.Logged, BitmapBlock, ForBalloc, SetBelow, UsedFor,
        Shape, DataStart, BitmapStart, FileSystem.Boot;
      BlocksAre(f);
      NothingBelow(f);
      BitmapLogged(sb, 0);
      UsedAlready(UsedNow(), sb);
      Readsb();
      UsedByBalloc(old(UsedNow()), old(UsedNow()), sb, 1);
      var b := 0;
      while b < sb.size
        invariant 0 <= b && b % BPB == 0
        invariant disk == old(disk) && Traced() && tx.base == old(tx.base) && HeldNow() == old(HeldNow())
        invariant UsedFor(old(UsedNow()), UsedNow(), sb, 1, 0)
        invariant SetBelow(f, b)
      {
        BitmapBlocksNext(f, b);
        BitmapLogged(sb, b);
        BlocksAre(f);
        var bm := BitmapBlock(sb, b);
        UsedByBalloc(old(UsedNow()), UsedNow(), sb, bm);
        var bp := Bread(bm);
        var bi := ScanBits(bp, b, f);
        SetBelowAre(f, b + bi);
        if bi < BPB && b + bi < sb.size {
          UsedByBlock(old(UsedNow()), UsedNow(), sb, bm, b + bi);
          TakeBlock(bm, bp, b + bi, f);
          return Some(b + bi);
        }
        Brelse(bm);
        AllSet(f, b + bi, b + BPB);
        b := b + BPB;
      }
      SetBelowAre(f, b);
      r := None;
    }

    /** The loop over the bits of the bitmap block of b: the place of the first clear one. */
    method ScanBits(bp: Block, b: nat, ghost f: FileSys) returns (bi: nat)
      requires Shape(f) && f.sb == sb && b % BPB == 0 && b < sb.size && SetBelow(f, b)
      requires BitmapBlock(sb, b) < |f.blocks| && bp == f.blocks[BitmapBlock(sb, b)]
      ensures bi <= BPB && SetBelow(f, b + bi) && (bi < BPB && b + bi < sb.size ==> !Bit(f, b + bi))
      ensures bi < BPB && b + bi < sb.size ==> BitmapBlock(sb, b + bi) == BitmapBlock(sb, b)
    {
      hide GetBit, Shape;
      bi := 0;
      while bi < BPB && b + bi < sb.size
        invariant 0 <= bi <= BPB && SetBelow(f, b + bi)
      {
        SameBitmapBlock(sb, b, bi);
        if !GetBit(bp, bi) {
          return;
        }
        bi := bi + 1;
      }
    }

    /** The bit of block x is set in the bitmap block bp, which is held, and x is zeroed. */
    method TakeBlock(bm: Word, bp: Block, x: Word, ghost f: FileSys)
      requires Shape(f) && f.sb == sb && f.blocks == disk.blocks && Traced()
      requires x < sb.size && bm == BitmapBlock(sb, x) && bm < |disk.blocks| && bp == disk.blocks[bm] && bm in HeldNow()
      requires x !in HeldNow() - {bm}
      modifies this`disk, this`tx
      ensures Traced() && tx.base == old(tx.base)
      ensures HeldNow() == old(HeldNow()) - {bm} && UsedNow() == old(UsedNow()) + {bm, x}
      ensures disk.blocks == Alloc(f, x).blocks
      ensures x >= 2 ==> Boot() == old(Boot())
    {
      hide GetBit, SetBit, Traced, HeldNow, UsedNow, FileSystem.Boot;
      LogWrite(bm, SetBit(bp, x % BPB, true));
      Brelse(bm);
      Bzero(x);
    }

    method Bzero(b: Word)
      requires Traced() && b < |disk.blocks| && b !in HeldNow()
      modifies this`disk, this`tx
      ensures Traced() && tx.base == old(tx.base)
      ensures disk == Store(old(disk.blocks)[b := ZERO_BLOCK])
      ensures HeldNow() == old(HeldNow()) && UsedNow() == old(UsedNow()) + {b}
      ensures b >= 2 ==> Boot() == old(Boot())
    {
      hide Traced, FileSystem.Boot;
      var bp := Bread(b);
      LogWrite(b, ZERO_BLOCK);
      Brelse(b);
    }

    /** Clear the bit of block b; false is the panic "freeing free block". */
    method Bfree(b: Word, ghost f: FileSys) returns (ok: bool)
      requires Shape(f) && f.sb == sb && f.blocks == disk.blocks && b < sb.size && Traced()
      requires forall h :: h in HeldNow() ==> DataStart(sb) <= h
      modifies this`disk, this`tx
      ensures Traced() && tx.base == old(tx.base)
      ensures ok == Bit(f, b)
      ensures !ok ==> disk == old(disk)
      ensures ok ==> disk.blocks == MarkBit(f, b, false).blocks && HeldNow() == old(HeldNow())
      ensures UsedNow() == old(UsedNow()) + {1, BitmapBlock(sb, b)}
      ensures Boot() == old(Boot())
    {
      hide GetBit, SetBit, Traced, UsedNow, HeldNow, FileSystem.Logged, FileSystem.Boot;
      BitmapBlocksNext(f, b);
      Readsb();
      var bm := BitmapBlock(sb, b);
      var bp := Bread(bm);
      if !GetBit(bp, b % BPB) {
        return false;
      }
      LogWrite(bm, SetBit(bp, b % BPB, false));
      Brelse(bm);
      ok := true;
    }

    /** Write the inode to its block. */
    method Iupdate(ip: MemInode)
      requires Inv(View(ip), owner) && Traced() && HeldNow() == {}
      modifies this`disk, this`tx
      ensures Traced() && tx.base == old(tx.base) && HeldNow() == {}
      ensures disk.blocks == Updated(old(View(ip))).blocks
      ensures |ip.addrs| == 13 && InodeWritten(old(disk.blocks), disk.blocks, ip.Value())
      ensures UsedNow() == old(UsedNow()) + {InodeBlock(ip.inum)}
      ensures Boot() == old(Boot())
    {
      hide Traced, HeldNow, UsedNow, Owned, Marked, Filled, FileSystem.Boot, InodeWritten;
      InodeBlocksFirst(View(ip), ip.inum);
      UpdatedBytes(View(ip));
      var ib := InodeBlock(ip.inum);
      var bp := Bread(ib);
      var dip := bp;
      var w := 0;
      while w < 16
        invariant 0 <= w <= 16
        invariant dip == PutInode(bp, ip.Value(), w)
      {
        dip := SetWord(dip, InodeWord(ip.inum, w), Field(ip, w));
        w := w + 1;
      }
      LogWrite(ib, dip);
      Brelse(ib);
    }

    function Field(ip: MemInode, w: nat): (v: Word)
      requires w < 16 && |ip.addrs| == NDIRECT + 1
      reads ip
      ensures v == InodeField(ip.Value(), w)
    {
      if w == 0 then ip.meta0 else if w == 1 then ip.meta1 else if w == 2 then ip.size else ip.addrs[w - 3]
    }

    // ----- bmap -----

    /** Disk block address of the bn-th block of the inode; allocates it if there is none. It fails
        exactly when fewer blocks are left than it needs. */
    method Bmap(ip: MemInode, bn: nat) returns (r: MapResult)
      requires Inv(View(ip), owner) && Traced() && HeldNow() == {}
      modifies this`disk, this`tx, this`owner, ip`addrs
      ensures r.OutOfRange? <==> bn >= MAXFILE
      ensures bn < MAXFILE ==> (r.Block? <==> Left(old(View(ip))) >= Need(old(View(ip)), bn, bn + 1))
      ensures bn < MAXFILE && !r.Block? ==> r == Short(old(View(ip)))
      ensures r.Block? ==>
                && Mapped(old(View(ip)), old(owner), View(ip), owner, bn)
                && Fetched(old(View(ip)), View(ip), bn, bn + 1)
                && r.b == Data(View(ip), ip.inum, bn)
                && UsedFor(old(UsedNow()), UsedNow(), sb, r.b, ip.addrs[NDIRECT])
      ensures Traced() && tx.base == old(tx.base) && (r.Block? ==> HeldNow() == {})
      ensures bn < MAXFILE && !r.Block? ==>
                && |ip.addrs| == NDIRECT + 1 && UsedAtStop(old(UsedNow()), UsedNow(), sb, [], ip.addrs[NDIRECT], r)
                && (old(ip.addrs[NDIRECT]) != 0 ==> ip.addrs[NDIRECT] == old(ip.addrs[NDIRECT]))
      ensures bn < MAXFILE && Data(old(View(ip)), ip.inum, bn) != 0 ==> r.Block? && Logged() == old(Logged())
      ensures Boot() == old(Boot())
    {
      hide Owned, Marked, Filled, DataKept, Mapped, Grown, Slot, Size, Traced, HeldNow, UsedNow, Logged, Left,
        LogClear, Need, Fed, UsedFor, UsedAtStop, FileSystem.Boot;
      if bn >= MAXFILE {
        return OutOfRange;
      }
      ghost var f, fo := View(ip), owner;
      NeedOne(f, bn);
      if bn < NDIRECT {
        r := MapDirect(ip, bn);
        UsedAnyIndirect(old(UsedNow()), UsedNow(), sb, 0, f.ip.addrs[NDIRECT], r);
      } else {
        if ip.addrs[NDIRECT] == 0 {
          var ok := AddIndirect(ip);
          if !ok.Block? {
            return ok;
          }
          ghost var g, go, u := View(ip), owner, UsedNow();
          GrownInv(f, fo, g, go);
          r := MapEntry(ip, bn);
          if r.Block? {
            GrownThenMapped(f, fo, g, go, View(ip), owner, bn);
            FedTwice(f, g, View(ip), 1, 1);
          }
          FedShort(f, g, 1);
          UsedTwice(old(UsedNow()), u, UsedNow(), g, go, r);
        } else {
          r := MapEntry(ip, bn);
        }
      }
      if r.Block? {
        FetchedOne(f, fo, View(ip), owner, bn);
      }
    }

    /** The direct half of bmap. */
    method MapDirect(ip: MemInode, bn: nat) returns (r: MapResult)
      requires Inv(View(ip), owner) && bn < NDIRECT && Traced() && HeldNow() == {}
      modifies this`disk, this`tx, this`owner, ip`addrs
      ensures var f := old(View(ip)); var k := if Data(f, ip.inum, bn) == 0 then 1 else 0;
              && (r.Block? <==> Left(f) >= k) && (!r.Block? ==> r == Short(f)) && (r.Block? ==> Fed(f, View(ip), k))
      ensures r.Block? ==>
                && Mapped(old(View(ip)), old(owner), View(ip), owner, bn) && ip.addrs[NDIRECT] == old(ip.addrs[NDIRECT])
                && r.b == Data(View(ip), ip.inum, bn)
                && UsedFor(old(UsedNow()), UsedNow(), sb, r.b, ip.addrs[NDIRECT])
      ensures Traced() && tx.base == old(tx.base) && (r.Block? ==> HeldNow() == {})
      ensures !r.Block? ==>
                UsedAtStop(old(UsedNow()), UsedNow(), sb, [], 0, r) && ip.addrs == old(ip.addrs)
      ensures Data(old(View(ip)), ip.inum, bn) != 0 ==> Logged() == old(Logged())
      ensures Boot() == old(Boot())
    {
      hide Owned, Marked, Filled, DataKept, Mapped, SlotsKept, SizesKept, BlocksKept, Alloc, Traced, UsedNow, Logged,
        Left, LogClear, Fed, UsedFor, UsedAtStop, FileSystem.Boot;
      ghost var f, fo := View(ip), owner;
      if ip.addrs[bn] == 0 {
        var a := Balloc(f);
        NotBoot(f, fo, if a.Some? then a.value else sb.size);
        FirstClear(f, if a.Some? then a.value else sb.size);
        BallocStops(f, old(UsedNow()), UsedNow(), a);
        if a.None? {
          return NoBlocks;
        }
        if a.value >= sb.size - sb.nlog {
          return LogSector;
        }
        AllocDirectKeeps(f, fo, a.value, bn);
        ip.addrs := ip.addrs[bn := a.value];
        owner := owner[a.value as nat := (ip.inum, bn)];
        assert View(ip) == AllocDirect(f, a.value, bn);
        DataSlotMaps(f, fo, View(ip), owner, bn);
        FedOne(f, View(ip), a.value);
        r := Block(a.value);
      } else {
        MappedAlready(f, fo, bn);
        FedNone(f, f);
        r := Block(ip.addrs[bn]);
      }
      UsedAnyIndirect(old(UsedNow()), UsedNow(), sb, r.b, ip.addrs[NDIRECT], r);
    }

    /** ip->addrs[NDIRECT] = balloc(). */
    method AddIndirect(ip: MemInode) returns (r: MapResult)
      requires Inv(View(ip), owner) && ip.addrs[NDIRECT] == 0 && Traced() && HeldNow() == {}
      modifies this`disk, this`tx, this`owner, ip`addrs
      ensures (r.Block? <==> Left(old(View(ip))) >= 1) && (!r.Block? ==> r == Short(old(View(ip))))
      ensures r.Block? ==>
                && Grown(old(View(ip)), old(owner), View(ip), owner) && ip.addrs[NDIRECT] != 0
                && (forall k :: 0 <= k < MAXFILE ==> Data(View(ip), ip.inum, k) == Data(old(View(ip)), ip.inum, k))
                && Fed(old(View(ip)), View(ip), 1)
                && UsedFor(old(UsedNow()), UsedNow(), sb, ip.addrs[NDIRECT], ip.addrs[NDIRECT])
      ensures Traced() && tx.base == old(tx.base) && (r.Block? ==> HeldNow() == {})
      ensures !r.Block? ==>
                UsedAtStop(old(UsedNow()), UsedNow(), sb, [], 0, r) && ip.addrs == old(ip.addrs)
      ensures Boot() == old(Boot())
    {
      hide Owned, Marked, Filled, DataKept, Grown, Alloc, Traced, UsedNow, Left, LogClear, Fed, UsedFor, UsedAtStop,
        FileSystem.Boot;
      ghost var f, fo := View(ip), owner;
      var a := Balloc(f);
      NotBoot(f, fo, if a.Some? then a.value else sb.size);
      FirstClear(f, if a.Some? then a.value else sb.size);
      BallocStops(f, old(UsedNow()), UsedNow(), a);
      if a.None? {
        return NoBlocks;
      }
      if a.value >= sb.size - sb.nlog {
        return LogSector;
      }
      IndirectGrows(f, fo, a.value);
      UsedAsIndirect(old(UsedNow()), UsedNow(), sb, a.value);
      ip.addrs := ip.addrs[NDIRECT := a.value];
      owner := owner[a.value as nat := (ip.inum, INDIRECT)];
      assert View(ip) == AllocDirect(f, a.value, NDIRECT);
      FedOne(f, View(ip), a.value);
      r := Block(a.value);
    }

    /** The part of bmap that works on the indirect block. */
    method MapEntry(ip: MemInode, bn: nat) returns (r: MapResult)
      requires Inv(View(ip), owner) && NDIRECT <= bn < MAXFILE && ip.addrs[NDIRECT] != 0 && Traced() && HeldNow() == {}
      modifies this`disk, this`tx, this`owner
      ensures var f := old(View(ip)); var k := if Data(f, ip.inum, bn) == 0 then 1 else 0;
              && (r.Block? <==> Left(f) >= k) && (!r.Block? ==> r == Short(f)) && (r.Block? ==> Fed(f, View(ip), k))
      ensures r.Block? ==>
                && Mapped(old(View(ip)), old(owner), View(ip), owner, bn)
                && r.b == Data(View(ip), ip.inum, bn)
                && UsedFor(old(UsedNow()), UsedNow(), sb, r.b, ip.addrs[NDIRECT])
      ensures Traced() && tx.base == old(tx.base) && (r.Block? ==> HeldNow() == {})
      ensures !r.Block? ==> UsedAtStop(old(UsedNow()), UsedNow(), sb, [], ip.addrs[NDIRECT], r)
      ensures Data(old(View(ip)), ip.inum, bn) != 0 ==> Logged() == old(Logged())
      ensures Boot() == old(Boot())
    {
      hide Owned, Marked, Filled, DataKept, Mapped, SlotsKept, SizesKept, BlocksKept, Alloc, Traced, HeldNow, UsedNow,
        Logged, Left, LogClear, Fed, GetBit, SetWord, UsedAtStop, FileSystem.Boot;
      ghost var f, fo := View(ip), owner;
      IndirectOwned(f, fo);
      SlotInUse(f, fo, INDIRECT);
      var addr := ip.addrs[NDIRECT];
      var bp := Bread(addr);
      var a := GetWord(bp, bn - NDIRECT);
      if a == 0 {
        ghost var u := UsedNow();
        var got := Balloc(f);
        NotBoot(f, fo, if got.Some? then got.value else sb.size);
        FirstClear(f, if got.Some? then got.value else sb.size);
        BallocStopsHolding(f, fo, old(UsedNow()), u, UsedNow(), got);
        if got.None? {
          return NoBlocks;
        }
        if got.value >= sb.size - sb.nlog {
          return LogSector;
        }
        a := got.value;
        AllocEntryKeeps(f, fo, a, bn - NDIRECT);
        LogWrite(addr, SetWord(bp, bn - NDIRECT, a));
        owner := owner[a as nat := (ip.inum, 13 + (bn - NDIRECT))];
        assert View(ip) == AllocEntry(f, a, bn - NDIRECT);
        DataSlotMaps(f, fo, View(ip), owner, bn);
        FedOne(f, View(ip), a);
      } else {
        MappedAlready(f, fo, bn);
        FedNone(f, f);
      }
      Brelse(addr);
      r := Block(a);
    }

    // ----- readi and writei -----

    /** The bytes of the file from off, at most n of them; None is the result -1. Nothing is logged. */
    method Readi(ip: MemInode, off: Word, n: Word) returns (r: Option<seq<Byte>>)
      requires Good(View(ip), owner) && Traced() && HeldNow() == {}
      modifies this`disk, this`tx, this`owner, ip`addrs
      ensures View(ip) == old(View(ip)) && owner == old(owner)
      ensures Traced() && HeldNow() == {} && tx.base == old(tx.base) && Logged() == old(Logged())
      ensures r == if off > ip.size || off + n >= 0x1_0000_0000 then None
                   else Some(Contents(View(ip), ip.inum)[off..if off + n > ip.size then ip.size else off + n])
      ensures Boot() == old(Boot())
    {
      hide Inv, Synced, Mapped, Slot, Traced, HeldNow, Logged, UsedFor, Fetched, Left, Need, Filled, Contents,
        FileSystem.Boot;
      ghost var f, fo := View(ip), owner;
      GoodInv(f, fo);
      if off > ip.size || (off + n) % 0x1_0000_0000 < off {
        return None;
      }
      var len := if off + n > ip.size then ip.size - off else n;
      var dst: seq<Byte> := [];
      var tot := 0;
      assert Contents(f, ip.inum)[off..off] == [];
      while tot < len
        invariant 0 <= tot <= len
        invariant View(ip) == f && owner == fo
        invariant Traced() && HeldNow() == {} && tx.base == old(tx.base) && Logged() == old(Logged())
        invariant Boot() == old(Boot())
        invariant dst == Contents(f, ip.inum)[off..off + tot]
      {
        var pos := off + tot;
        var m := Min(len - tot, BSIZE - pos % BSIZE);
        var chunk := ReadChunk(ip, pos, m);
        SliceMore(Contents(f, ip.inum), off, tot, m);
        dst := dst + chunk;
        tot := tot + m;
      }
      r := Some(dst);
    }

    /** One round of readi's loop. */
    method ReadChunk(ip: MemInode, pos: nat, m: nat) returns (chunk: seq<Byte>)
      requires Good(View(ip), owner) && Traced() && HeldNow() == {}
      requires 0 < m <= BSIZE - pos % BSIZE && pos + m <= ip.size
      modifies this`disk, this`tx, this`owner, ip`addrs
      ensures View(ip) == old(View(ip)) && owner == old(owner)
      ensures Traced() && HeldNow() == {} && tx.base == old(tx.base) && Logged() == old(Logged())
      ensures pos + m <= |Contents(View(ip), ip.inum)| && chunk == Contents(View(ip), ip.inum)[pos..pos + m]
      ensures Boot() == old(Boot())
    {
      hide Inv, Synced, Mapped, Slot, Traced, HeldNow, Logged, UsedFor, Fetched, Left, Need, Filled, Contents,
        FileSystem.Boot;
      ghost var f, fo := View(ip), owner;
      GoodInv(f, fo);
      FilledAt(f, ip.inum, ip.size, pos);
      var b := Bmap(ip, pos / BSIZE);
      MappedSame(f, fo, View(ip), owner, pos / BSIZE);
      BlockIsContents(f, ip.inum, pos, m);
      var bp := Bread(b.b);
      chunk := bp[pos % BSIZE..pos % BSIZE + m];
      Brelse(b.b);
    }

    /** Write src at off. Refused is the result -1; OutOfBlocks the panic of balloc, exactly when fewer
        blocks are left than the write needs and the bits of the log are set; TookLogSector the same
        with a clear bit there, when balloc takes a sector of the log for a block of the file. */
    method Writei(ip: MemInode, src: seq<Byte>, off: Word) returns (r: WriteResult)
      requires Good(View(ip), owner) && |src| < 0x1_0000_0000 && Traced() && HeldNow() == {}
      modifies this`disk, this`tx, this`owner, ip`addrs, ip`size
      ensures r.Refused? <==> off > old(ip.size) || off + |src| > MAXFILE * BSIZE
      ensures r.Refused? ==> View(ip) == old(View(ip)) && tx == old(tx) && owner == old(owner)
      ensures !r.Refused? ==> (r.Wrote? <==> Left(old(View(ip))) >= WriteNeed(old(View(ip)), off, |src|))
      ensures r.TookLogSector? ==> LogClear(old(View(ip)))
      ensures r.OutOfBlocks? ==> !LogClear(old(View(ip)))
      ensures r.Wrote? ==> r.n == |src| && Good(View(ip), owner)
      ensures r.Wrote? ==> Spliced(old(View(ip)), View(ip), off, src)
      ensures Traced() && tx.base == old(tx.base) && (r.Wrote? ==> HeldNow() == {})
      ensures r.Wrote? || r.OutOfBlocks? ==> UsedFew(old(UsedNow()), UsedNow(), sb, 4 + Span(off, off + |src|))
      ensures r.TookLogSector? ==> HomeFew(old(UsedNow()), UsedNow(), sb, 4 + Span(off, off + |src|))
      ensures Boot() == old(Boot())
    {
      hide Owned, Marked, Filled, Synced, Mapped, Written, Good, Slot, Size, ChunkBlock, Finished, PutData, Traced,
        HeldNow, UsedNow, Fetched, Left, Need, LogClear, Contents, UsedOnly, UsedFew, HomeFew, UsedAtStop, Spliced,
        FetchedSoFar, WriteNeed, OnBlock, Span, FileSystem.Boot;
      ghost var f0, fo0 := View(ip), owner;
      GoodInv(f0, fo0);
      if off > ip.size || (off + |src|) % 0x1_0000_0000 < off {
        return Refused;
      }
      if off + |src| > MAXFILE * BSIZE {
        return Refused;
      }
      WrittenStart(f0, fo0, off, src);
      ghost var touched := [];
      var tot := 0;
      FirstBlock(f0, off, |src|);
      UsedNothing(UsedNow(), sb, ip.addrs[NDIRECT]);
      while tot < |src|
        invariant 0 <= tot <= |src|
        invariant Written(f0, View(ip), owner, off, src, off + tot) && Inv(View(ip), owner)
        invariant |touched| == Span(off, off + tot) && OnBlock(off, tot, |src|)
        invariant FetchedSoFar(f0, View(ip), off, tot)
        invariant Traced() && HeldNow() == {} && tx.base == old(tx.base)
        invariant Boot() == old(Boot())
        invariant UsedOnly(old(UsedNow()), UsedNow(), sb, touched, ip.addrs[NDIRECT])
      {
        var m := Min(|src| - tot, BSIZE - (off + tot) % BSIZE);
        ghost var f := View(ip);
        NextBlock(off, tot, m, |src|);
        NeedSoFar(f0, f, off, tot, |src|);
        var ok := WriteChunk(ip, src, off, tot, m, f0, touched, old(UsedNow()));
        if !ok.Block? {
          CountStopped(old(UsedNow()), UsedNow(), sb, touched, ip.addrs[NDIRECT], ok, 4 + Span(off, off + |src|));
          return if ok.NoBlocks? then OutOfBlocks else TookLogSector;
        }
        FetchedMore(f0, f, View(ip), off, tot, m);
        touched := touched + [Data(View(ip), ip.inum, (off + tot) / BSIZE) as nat];
        tot := tot + m;
      }
      ghost var f, used := View(ip), UsedNow();
      WriteDone(f0, fo0, f, owner, off, src);
      Grow(ip, off, |src|);
      CountUsed(old(UsedNow()), used, UsedNow(), f0, touched, ip.addrs[NDIRECT]);
      r := Wrote(|src|);
    }

    /** The end of writei. */
    method Grow(ip: MemInode, off: Word, n: nat)
      requires Inv(View(ip), owner) && Traced() && HeldNow() == {} && off + n <= MAXFILE * BSIZE
      modifies this`disk, this`tx, ip`size
      ensures View(ip) == Finished(old(View(ip)), off, n)
      ensures Traced() && HeldNow() == {} && tx.base == old(tx.base)
      ensures UsedNow() == old(UsedNow()) || UsedNow() == old(UsedNow()) + {InodeBlock(ip.inum) as Word}
      ensures Boot() == old(Boot())
    {
      hide Owned, Marked, Filled, Slot, Size, Traced, HeldNow, UsedNow, FileSystem.Boot;
      ghost var f := View(ip);
      if n > 0 && off + n > ip.size {
        ip.size := off + n;
        ResizedInv(f, owner, off + n);
        InodeBlocksFirst(f, ip.inum);
        Iupdate(ip);
      }
      assert View(ip) == Finished(f, off, n);
    }

    /** One round of writei's loop; what bmap says if it gives no block. */
    method WriteChunk(ip: MemInode, src: seq<Byte>, off: Word, tot: nat, m: nat, ghost f0: FileSys,
                      ghost touched: seq<nat>, ghost before: set<Word>) returns (r: MapResult)
      requires Inv(View(ip), owner) && f0.ip.inum == ip.inum && Traced() && HeldNow() == {}
      requires tot + m <= |src| && 0 < m <= BSIZE - (off + tot) % BSIZE
      requires Written(f0, View(ip), owner, off, src, off + tot) && off + tot < MAXFILE * BSIZE
      requires UsedOnly(before, UsedNow(), sb, touched, ip.addrs[NDIRECT])
      modifies this`disk, this`tx, this`owner, ip`addrs
      ensures var f, bn := old(View(ip)), (off + tot) / BSIZE;
              && (r.Block? <==> Left(f) >= Need(f, bn, bn + 1)) && (!r.Block? ==> r == Short(f))
              && (r.Block? ==> Fetched(f, View(ip), bn, bn + 1))
      ensures r.Block? ==>
                && Written(f0, View(ip), owner, off, src, off + tot + m) && Inv(View(ip), owner)
                && UsedOnly(before, UsedNow(), sb, touched + [Data(View(ip), ip.inum, (off + tot) / BSIZE) as nat],
                            ip.addrs[NDIRECT])
      ensures Traced() && tx.base == old(tx.base) && (r.Block? ==> HeldNow() == {})
      ensures !r.Block? ==>
                |ip.addrs| == NDIRECT + 1 && UsedAtStop(before, UsedNow(), sb, touched, ip.addrs[NDIRECT], r)
      ensures Boot() == old(Boot())
    {
      hide Owned, Marked, Filled, Synced, Mapped, Written, Slot, Size, PutData, Traced, HeldNow, UsedNow, Fetched,
        Left, Need, LogClear, UsedOnly, UsedFor, UsedAtStop, FileSystem.Boot;
      var bn := (off + tot) / BSIZE;
      ghost var f, fo, u := View(ip), owner, UsedNow();
      r := Bmap(ip, bn);
      if !r.Block? {
        ChunkStops(before, u, UsedNow(), sb, touched, f.ip.addrs[NDIRECT], ip.addrs[NDIRECT], r);
        return;
      }
      ghost var g, go, mid := View(ip), owner, UsedNow();
      MappedShape(f, fo, g, go, bn);
      DataNotBoot(g, go, bn);
      ChunkWritten(f0, f, fo, off, src, off + tot, g, go, m);
      var o := (off + tot) % BSIZE;
      var bp := Bread(r.b);
      LogWrite(r.b, bp[..o] + src[tot..tot + m] + bp[o + m..]);
      Brelse(r.b);
      ghost var block := ChunkBlock(g, off, src, off + tot, m);
      ChunkFacts(f, fo, g, go, bn, block);
      ChunkFetched(f, g, go, bn, block);
      ChunkUsed(before, u, mid, UsedNow(), touched, f, fo, g, go, bn);
    }

    /** One chunk of filewrite: begin_trans, writei, commit_trans. */
    method WriteTransaction(ip: MemInode, src: seq<Byte>, off: Word) returns (w: WriteResult, ghost ops: seq<Op>)
      requires Good(View(ip), owner) && Traced() && 0 < |src| <= CHUNK
      modifies this`disk, this`tx, this`owner, this`done, ip`addrs, ip`size
      ensures Shape(old(View(ip))) && Answered(old(View(ip)), off, |src|, w)
      ensures done == old(done) + if w.Wrote? then [ops] else if w.Refused? then [[]] else []
      ensures w.Refused? || w.Wrote? ==> Good(View(ip), owner) && Traced() && HeldNow() == {}
      ensures w.Refused? ==> View(ip) == old(View(ip))
      ensures w.Wrote? ==> ChunkDone(old(View(ip)), ops, View(ip), off, src)
      ensures !w.Wrote? && !w.Refused? ==> tx.ops == ops && Stopped(old(View(ip)), ops, w.OutOfBlocks?)
      ensures Boot() == old(Boot())
    {
      hide Good, Traced, HeldNow, Answered, ChunkDone, Stopped, FileSystem.Boot;
      GoodFacts(View(ip), owner);
      w := WriteInside(ip, src, off);
      ops := tx.ops;
      if w.Wrote? || w.Refused? {
        CommitTrans();
      }
    }

    /** begin_trans and writei. */
    method WriteInside(ip: MemInode, src: seq<Byte>, off: Word) returns (w: WriteResult)
      requires Good(View(ip), owner) && Traced() && 0 < |src| <= CHUNK
      modifies this`disk, this`tx, this`owner, ip`addrs, ip`size
      ensures Shape(old(View(ip))) && Answered(old(View(ip)), off, |src|, w)
      ensures w.Refused? || w.Wrote? ==> Good(View(ip), owner) && Traced() && HeldNow() == {}
      ensures w.Refused? ==> View(ip) == old(View(ip)) && tx.ops == []
      ensures w.Wrote? ==> ChunkDone(old(View(ip)), tx.ops, View(ip), off, src)
      ensures !w.Wrote? && !w.Refused? ==> Stopped(old(View(ip)), tx.ops, w.OutOfBlocks?)
      ensures Boot() == old(Boot())
    {
      hide Good, Contents, Size, Left, WriteNeed, LogClear, Span, Traced, HeldNow, UsedNow, Step, UsedFew, HomeFew,
        Spliced, Stopped, Script, Puts, Used, Held, FileSystem.Boot;
      ghost var f := View(ip);
      GoodFacts(f, owner);
      TracedIs();
      BeginTrans();
      ghost var before := UsedNow();
      w := Writei(ip, src, off);
      if w.Wrote? {
        GoodFacts(View(ip), owner);
        TracedIs();
        StepDone(f, tx.ops, View(ip), off, |src|, before);
      } else if !w.Refused? {
        TracedIs();
        StopDone(f, tx.ops, off, |src|, before, w.OutOfBlocks?);
      }
    }

    // ----- itrunc -----

    /** Give up all blocks of the inode; it never hits the panic of bfree. */
    method Itrunc(ip: MemInode)
      requires Inv(View(ip), owner) && Traced() && HeldNow() == {}
      modifies this`disk, this`tx, this`owner, ip`addrs, ip`size
      ensures Good(View(ip), owner) && Contents(View(ip), ip.inum) == []
      ensures Traced() && HeldNow() == {} && tx.base == old(tx.base)
      ensures OthersKept(old(View(ip)), View(ip))
      ensures forall b :: b in owner <==> b in old(owner) && old(owner)[b].0 != ip.inum
      ensures Left(View(ip)) == Left(old(View(ip))) + |OwnBlocks(old(View(ip)))|
      ensures LogBitsKept(old(View(ip)), View(ip)) && (LogClear(View(ip)) <==> LogClear(old(View(ip))))
      ensures forall x :: x in UsedNow() && x !in old(UsedNow()) ==>
                ForBalloc(sb, x) || x == InodeBlock(ip.inum) || x == old(ip.addrs)[NDIRECT]
      ensures Boot() == old(Boot())
    {
      hide Traced, UsedNow, HeldNow, Owned, Marked, Filled, Freeing, DataKept, Slot, Size, FreeDirect, Contents, Good,
        Synced, PutInode, OthersKept, LogBitsKept, Left, LogClear, OwnBlocks, Bit, InodeWritten, FileSystem.Boot;
      ghost var f0, fo := View(ip), owner;
      FreeingStart(f0, fo);
      FreeDirects(ip, f0, fo);
      if ip.addrs[NDIRECT] != 0 {
        FreeIndirect(ip, f0, fo);
      }
      ghost var f := View(ip);
      EmptiedKeeps(f0, fo, f, owner);
      OthersAre(f0, Emptied(f));
      LogClearKept(f0, Emptied(f));
      SetEmpty(ip);
    }

    /** Its end. */
    method SetEmpty(ip: MemInode)
      requires Inv(View(ip), owner) && Traced() && HeldNow() == {}
      modifies this`disk, this`tx, ip`size
      ensures View(ip) == Emptied(old(View(ip)))
      ensures Traced() && HeldNow() == {} && tx.base == old(tx.base)
      ensures forall x :: x in UsedNow() && x !in old(UsedNow()) ==> x == InodeBlock(ip.inum)
      ensures Boot() == old(Boot())
    {
      hide Traced, UsedNow, HeldNow, Owned, Marked, Filled, Synced, PutInode, InodeWritten, FileSystem.Boot;
      ghost var f := View(ip);
      ip.size := 0;
      assert View(ip) == Resized(f, 0);
      ResizedInv(f, owner, 0);
      Iupdate(ip);
    }

    /** itrunc as a transaction. */
    method TruncTransaction(ip: MemInode) returns (ghost ops: seq<Op>)
      requires Good(View(ip), owner) && Traced()
      modifies this`disk, this`tx, this`owner, this`done, ip`addrs, ip`size
      ensures Good(View(ip), owner) && Traced() && HeldNow() == {} && done == old(done) + [ops]
      ensures Step(old(View(ip)), ops, View(ip)) && OthersKept(old(View(ip)), View(ip))
      ensures Contents(View(ip), ip.inum) == []
      ensures Boot() == old(Boot())
    {
      hide Good, Contents, Size, Left, LogClear, LogBitsKept, OwnBlocks, Traced, HeldNow, UsedNow, Step, OthersKept,
        Script, Puts, Used, Held, ForBalloc, FileSystem.Boot;
      ghost var f, fo := View(ip), owner;
      GoodInv(f, fo);
      TracedIs();
      BeginTrans();
      Itrunc(ip);
      GoodFacts(View(ip), owner);
      TracedIs();
      TruncStep(f, fo, tx.ops, View(ip));
      ops := tx.ops;
      CommitTrans();
    }

    /** The first loop of itrunc. */
    method FreeDirects(ip: MemInode, ghost f0: FileSys, ghost fo: Owner)
      requires Freeing(f0, fo, View(ip), owner) && Inv(View(ip), owner) && Traced() && HeldNow() == {}
      modifies this`disk, this`tx, this`owner, ip`addrs
      ensures Freeing(f0, fo, View(ip), owner) && Inv(View(ip), owner)
      ensures Traced() && HeldNow() == {} && tx.base == old(tx.base)
      ensures (forall s :: 0 <= s < NDIRECT ==> ip.addrs[s] == 0) && ip.addrs[NDIRECT] == old(ip.addrs)[NDIRECT]
      ensures forall x :: x in UsedNow() && x !in old(UsedNow()) ==> ForBalloc(sb, x)
      ensures Boot() == old(Boot())
    {
      hide Traced, UsedNow, HeldNow, Owned, Marked, Filled, Freeing, MarkBit, Bit, FileSystem.Boot;
      var i := 0;
      while i < NDIRECT
        invariant 0 <= i <= NDIRECT
        invariant Freeing(f0, fo, View(ip), owner) && Inv(View(ip), owner)
        invariant Traced() && HeldNow() == {} && tx.base == old(tx.base)
        invariant Boot() == old(Boot())
        invariant (forall s :: 0 <= s < i ==> ip.addrs[s] == 0) && ip.addrs[NDIRECT] == old(ip.addrs)[NDIRECT]
        invariant forall x :: x in UsedNow() && x !in old(UsedNow()) ==> ForBalloc(sb, x)
      {
        if ip.addrs[i] != 0 {
          FreeOne(ip, i, f0, fo, 0);
        }
        i := i + 1;
      }
    }

    /** bfree(ip->addrs[s]); ip->addrs[s] = 0. */
    method FreeOne(ip: MemInode, s: nat, ghost f0: FileSys, ghost fo: Owner, ghost dead: nat)
      requires dead <= NINDIRECT && s <= NDIRECT && (s == NDIRECT ==> dead == NINDIRECT)
      requires var f := FileSys(sb, disk.blocks, ip.Value(), dead);
               Freeing(f0, fo, f, owner) && Inv(f, owner) && ip.addrs[s] != 0
      requires Traced() && HeldNow() == {}
      modifies this`disk, this`tx, this`owner, ip`addrs
      ensures var f := FileSys(sb, disk.blocks, ip.Value(), if s == NDIRECT then 0 else dead);
              Freeing(f0, fo, f, owner) && Inv(f, owner)
      ensures Traced() && HeldNow() == {} && tx.base == old(tx.base)
      ensures ip.addrs == old(ip.addrs)[s := 0]
      ensures forall x :: x in UsedNow() && x !in old(UsedNow()) ==> ForBalloc(sb, x)
      ensures Boot() == old(Boot())
    {
      hide Traced, UsedNow, HeldNow, Owned, Marked, Filled, Freeing, MarkBit, Bit, FileSystem.Boot;
      ghost var f := FileSys(sb, disk.blocks, ip.Value(), dead);
      FreeDirectStep(f0, fo, f, owner, s);
      BitmapLogged(sb, ip.addrs[s]);
      var ok := Bfree(ip.addrs[s], f);
      ghost var b: nat := ip.addrs[s];
      ip.addrs := ip.addrs[s := 0];
      owner := owner - {b};
      assert FileSys(sb, disk.blocks, ip.Value(), if s == NDIRECT then 0 else dead) == FreeDirect(f, s);
      FreeingInv(f0, fo, FreeDirect(f, s), owner);
    }

    /** The part of itrunc that works on the indirect block. */
    method FreeIndirect(ip: MemInode, ghost f0: FileSys, ghost fo: Owner)
      requires Freeing(f0, fo, View(ip), owner) && Inv(View(ip), owner) && ip.addrs[NDIRECT] != 0
      requires Traced() && HeldNow() == {}
      modifies this`disk, this`tx, this`owner, ip`addrs
      ensures Freeing(f0, fo, View(ip), owner) && Inv(View(ip), owner)
      ensures Traced() && HeldNow() == {} && tx.base == old(tx.base)
      ensures ip.addrs == old(ip.addrs)[NDIRECT := 0]
      ensures forall x :: x in UsedNow() && x !in old(UsedNow()) ==> ForBalloc(sb, x) || x == old(ip.addrs)[NDIRECT]
      ensures Boot() == old(Boot())
    {
      hide Traced, UsedNow, HeldNow, Owned, Marked, Filled, Freeing, MarkBit, Bit, FileSystem.Boot;
      IndirectOwned(View(ip), owner);
      var ind := ip.addrs[NDIRECT];
      var bp := Bread(ind);
      var j := 0;
      while j < NINDIRECT
        invariant 0 <= j <= NINDIRECT
        invariant var f := FileSys(sb, disk.blocks, ip.Value(), j);
                  Freeing(f0, fo, f, owner) && Inv(f, owner)
        invariant ip.addrs == old(ip.addrs) && Traced() && HeldNow() == {ind} && tx.base == old(tx.base)
        invariant Boot() == old(Boot())
        invariant DataStart(sb) <= ip.addrs[NDIRECT] < |disk.blocks| && disk.blocks[ip.addrs[NDIRECT]] == bp
        invariant forall x :: x in UsedNow() && x !in old(UsedNow()) ==> ForBalloc(sb, x) || x == ind
      {
        ghost var f := FileSys(sb, disk.blocks, ip.Value(), j);
        FreeEntryStep(f0, fo, f, owner);
        var b := GetWord(bp, j);
        assert b == Slot(f, ip.inum, 13 + j);
        if b != 0 {
          BitmapLogged(sb, b);
          UnmarkKeepsData(f, b, ip.addrs[NDIRECT]);
          var ok := Bfree(b, f);
          owner := owner - {b as nat};
        }
        assert FileSys(sb, disk.blocks, ip.Value(), j + 1) == FreeEntry(f);
        FreeingInv(f0, fo, FreeEntry(f), owner);
        j := j + 1;
      }
      Brelse(ind);
      FreeOne(ip, NDIRECT, f0, fo, NINDIRECT);
    }
  }

  /** Wrote and Refused return; OutOfBlocks is the panic of balloc; TookLogSector the run that balloc leads
      into the log. */
  datatype WriteResult = Wrote(n: nat) | Refused | OutOfBlocks | TookLogSector

  /** ((LOGSIZE-1-1-2) / 2) * 512 */
  const CHUNK: nat := (LOGSIZE - 1 - 1 - 2) / 2 * 512

  /** How many blocks the byte range [off, pos) touches. */
  function Span(off: nat, pos: nat): nat
    requires off <= pos
  {
    if pos == off then 0 else (pos - 1) / BSIZE - off / BSIZE + 1
  }

  /** Only what balloc reads, the listed data blocks and the indirect block were used, none of the log. */
  ghost predicate UsedOnly(before: set<Word>, after: set<Word>, sb: Super, touched: seq<nat>, ind: nat) {
    before <= after
    && forall x :: x in after && x !in before ==>
         x < LogStart(sb) && (ForBalloc(sb, x) || x as nat in touched || (ind != 0 && x == ind))
  }

  /** Between before and after only home sectors came into use, and with one bitmap block at most k. */
  ghost predicate UsedFew(before: set<Word>, after: set<Word>, sb: Super, k: nat) {
    && (forall x :: x in after && x !in before ==> x < LogStart(sb))
    && (sb.size <= BPB ==> |after - before| <= k)
  }

  /** And of home sectors alone. */
  ghost predicate HomeFew(before: set<Word>, after: set<Word>, sb: Super, k: nat) {
    sb.size <= BPB ==> |HomeOf(after - before, LogStart(sb))| <= k
  }

  ghost function HomeOf(used: set<Word>, start: int): set<Word> {
    set x | x in used && x < start
  }

  /** Balloc has failed after the listed blocks were touched. */
  lemma CountStopped(before: set<Word>, after: set<Word>, sb: Super, touched: seq<nat>, ind: nat, r: MapResult, k: nat)
    requires UsedAtStop(before, after, sb, touched, ind, r) && 3 + |touched| <= k
    ensures HomeFew(before, after, sb, k)
    ensures !r.LogSector? ==> UsedFew(before, after, sb, k)
  {
    if sb.size <= BPB {
      var home := HomeOf(after - before, LogStart(sb));
      var all := [1, BitmapStart(sb), ind] + touched;
      forall x | x in home
        ensures x as nat in all
      {
        if x as nat in touched {
          var j :| 0 <= j < |touched| && touched[j] == x;
          assert all[3 + j] == x;
        } else {
          assert all[0] == 1 && all[1] == BitmapStart(sb) && all[2] == ind;
        }
      }
      ListBounds(home, all);
      if !r.LogSector? {
        assert home == after - before;
      }
    }
  }

  /** A write of total bytes at off has come to the beginning of a block, or has just begun. */
  predicate OnBlock(off: nat, tot: nat, total: nat) {
    0 < tot < total ==> (off + tot) % BSIZE == 0
  }

  lemma FirstBlock(f: FileSys, off: nat, total: nat)
    requires Shape(f)
    ensures OnBlock(off, 0, total) && FetchedSoFar(f, f, off, 0) && Span(off, off) == 0
  {
  }

  /** The next m bytes are the rest of one block, or of the write. */
  lemma NextBlock(off: nat, tot: nat, m: nat, total: nat)
    requires tot < total && OnBlock(off, tot, total) && m == Min(total - tot, BSIZE - (off + tot) % BSIZE)
    ensures 0 < m <= BSIZE - (off + tot) % BSIZE && tot + m <= total
    ensures (off + tot + m - 1) / BSIZE == (off + tot) / BSIZE
    ensures Span(off, off + tot + m) == Span(off, off + tot) + 1 && OnBlock(off, tot + m, total)
    ensures Span(off, off + tot) <= Span(off, off + total)
  {
    BlockAligned(off + tot, m);
    if tot > 0 {
      assert (off + tot - 1) / BSIZE + 1 == (off + tot) / BSIZE;
    }
  }

  lemma BlockAligned(pos: nat, m: nat)
    requires 0 < m <= BSIZE - pos % BSIZE
    ensures (pos + m - 1) / BSIZE == pos / BSIZE
    ensures m == BSIZE - pos % BSIZE ==> (pos + m) % BSIZE == 0
  {
    assert pos + m - 1 == pos / BSIZE * BSIZE + (pos % BSIZE + m - 1);
  }

  lemma ChunkStops(before: set<Word>, u: set<Word>, after: set<Word>, sb: Super, touched: seq<nat>, ind: nat,
                   ind': nat, r: MapResult)
    requires UsedOnly(before, u, sb, touched, ind) && (ind != 0 ==> ind' == ind)
    requires UsedAtStop(u, after, sb, [], ind', r)
    ensures UsedAtStop(before, after, sb, touched, ind', r)
  {
  }

  /** Only home sectors are used; with one bitmap block those are the super block, the bitmap, the
      indirect block, the inode block and the data blocks. */
  lemma CountUsed(before: set<Word>, u: set<Word>, after: set<Word>, f: FileSys, touched: seq<nat>, ind: nat)
    requires Shape(f) && UsedOnly(before, u, f.sb, touched, ind)
    requires after == u || after == u + {InodeBlock(f.ip.inum) as Word}
    ensures UsedFew(before, after, f.sb, 4 + |touched|)
  {
    InodeBlocksFirst(f, f.ip.inum);
    if f.sb.size <= BPB {
      var all := [1, BitmapStart(f.sb), ind, InodeBlock(f.ip.inum)] + touched;
      forall x | x in after - before
        ensures x as nat in all
      {
        if x as nat in touched {
          var j :| 0 <= j < |touched| && touched[j] == x;
          assert all[4 + j] == x;
        } else {
          assert all[0] == 1 && all[1] == BitmapStart(f.sb) && all[2] == ind && all[3] == InodeBlock(f.ip.inum);
        }
      }
      ListBounds(after - before, all);
    }
  }

  lemma {:induction false} ListBounds(extra: set<Word>, all: seq<nat>)
    requires forall x :: x in extra ==> x as nat in all
    ensures |extra| <= |all|
  {
    if all == [] {
      assert extra == {};
    } else {
      var n := |all| - 1;
      var rest := set x | x in extra && x != all[n];
      ListBounds(rest, all[..n]);
      if rest != extra {
        var y: Word := all[n];
        assert extra == rest + {y};
      }
    }
  }

  /** What balloc and bfree read: the super block and the bitmap blocks that hold a bit. */
  predicate ForBalloc(sb: Super, x: nat) {
    x == 1 || (BitmapStart(sb) <= x && x <= BitmapStart(sb) + (sb.size - 1) / BPB)
  }

  /** Between before and after only what balloc reads, block b and block ind were used. */
  ghost predicate UsedFor(before: set<Word>, after: set<Word>, sb: Super, b: nat, ind: nat) {
    before <= after
    && forall x :: x in after && x !in before ==> ForBalloc(sb, x) || x == b || (ind != 0 && x == ind)
  }

  /** The same when balloc has failed: besides, a sector of the log is used only if balloc has taken it. */
  ghost predicate UsedAtStop(before: set<Word>, after: set<Word>, sb: Super, touched: seq<nat>, ind: nat,
                             r: MapResult) {
    && before <= after
    && forall x :: x in after && x !in before ==>
         if x < LogStart(sb) then ForBalloc(sb, x) || x as nat in touched || (ind != 0 && x == ind) else r.LogSector?
  }

  /** Balloc has found no block, or a sector of the log. */
  lemma BallocStops(f: FileSys, before: set<Word>, after: set<Word>, a: Option<Word>)
    requires Shape(f) && UsedFor(before, after, f.sb, if a.Some? then a.value else 1, 0)
    ensures a.None? ==> UsedAtStop(before, after, f.sb, [], 0, NoBlocks)
    ensures a.Some? && a.value >= LogStart(f.sb) ==> UsedAtStop(before, after, f.sb, [], 0, LogSector)
  {
  }

  lemma BallocStopsHolding(f: FileSys, fo: Owner, before: set<Word>, u: set<Word>, after: set<Word>, a: Option<Word>)
    requires Inv(f, fo) && f.ip.addrs[NDIRECT] != 0 && u == before + {f.ip.addrs[NDIRECT]}
    requires UsedFor(u, after, f.sb, if a.Some? then a.value else 1, 0)
    ensures a.None? ==> UsedAtStop(before, after, f.sb, [], f.ip.addrs[NDIRECT], NoBlocks)
    ensures a.Some? && a.value >= LogStart(f.sb) ==>
              UsedAtStop(before, after, f.sb, [], f.ip.addrs[NDIRECT], LogSector)
  {
    SlotBelowLog(f, fo, INDIRECT);
    hide Owned, Marked, Filled;
  }

  lemma UsedAnyIndirect(before: set<Word>, after: set<Word>, sb: Super, b: nat, ind: nat, r: MapResult)
    ensures UsedFor(before, after, sb, b, 0) || after == before ==> UsedFor(before, after, sb, b, ind)
    ensures UsedAtStop(before, after, sb, [], 0, r) ==> UsedAtStop(before, after, sb, [], ind, r)
  {
  }

  lemma UsedAsIndirect(before: set<Word>, after: set<Word>, sb: Super, b: nat)
    requires UsedFor(before, after, sb, b, 0)
    ensures UsedFor(before, after, sb, b, b)
  {
  }

  lemma UsedTwice(before: set<Word>, u: set<Word>, after: set<Word>, g: FileSys, go: Owner, r: MapResult)
    requires Inv(g, go) && g.ip.addrs[NDIRECT] != 0
    requires UsedFor(before, u, g.sb, g.ip.addrs[NDIRECT], g.ip.addrs[NDIRECT])
    ensures UsedAtStop(u, after, g.sb, [], g.ip.addrs[NDIRECT], r) ==>
              UsedAtStop(before, after, g.sb, [], g.ip.addrs[NDIRECT], r)
    ensures r.Block? && UsedFor(u, after, g.sb, r.b, g.ip.addrs[NDIRECT]) ==>
              UsedFor(before, after, g.sb, r.b, g.ip.addrs[NDIRECT])
  {
    SlotBelowLog(g, go, INDIRECT);
    hide Owned, Marked, Filled;
  }

  /** What bmap needs for one block. */
  lemma NeedOne(f: FileSys, bn: nat)
    requires Shape(f) && bn < MAXFILE
    ensures Need(f, bn, bn + 1) == (if Data(f, f.ip.inum, bn) == 0 then 1 else 0) +
                                   (if bn >= NDIRECT && f.ip.addrs[NDIRECT] == 0 then 1 else 0)
    ensures bn >= NDIRECT && f.ip.addrs[NDIRECT] == 0 ==> Data(f, f.ip.inum, bn) == 0
  {
    assert Missing(f, bn, bn) == 0;
  }

  lemma FedTwice(f: FileSys, g: FileSys, h: FileSys, j: nat, k: nat)
    ensures Fed(f, g, j) && Fed(g, h, k) ==> Fed(f, h, j + k)
  {
  }

  lemma FedShort(f: FileSys, g: FileSys, k: nat)
    requires Fed(f, g, k)
    ensures Short(g) == Short(f) && Left(g) + k == Left(f)
  {
  }

  /** The bits of the boot block and of the super block are set. */
  lemma NotBoot(f: FileSys, owner: Owner, x: nat)
    requires Inv(f, owner)
    ensures x < f.sb.size && !Bit(f, x) ==> x >= 2
  {
    hide Owned, Filled, Bit;
  }

  lemma DataNotBoot(f: FileSys, owner: Owner, bn: nat)
    requires Inv(f, owner) && bn < MAXFILE
    ensures Data(f, f.ip.inum, bn) != 0 ==> Data(f, f.ip.inum, bn) >= 2
  {
    if Data(f, f.ip.inum, bn) != 0 {
      SlotInUse(f, owner, DataSlot(bn));
    }
    hide Marked, Filled;
  }

  lemma BlocksAre(f: FileSys)
    requires Shape(f)
    ensures 1 < DataStart(f.sb) <= |f.blocks| == f.sb.size < 0x1_0000_0000
  {
  }

  lemma UsedAlready(u: set<Word>, sb: Super)
    ensures UsedFor(u, u, sb, 1, 0)
  {
  }

  lemma UsedByBalloc(before: set<Word>, u: set<Word>, sb: Super, x: Word)
    requires UsedFor(before, u, sb, 1, 0) && ForBalloc(sb, x)
    ensures UsedFor(before, u + {x}, sb, 1, 0)
  {
    hide ForBalloc;
  }

  lemma UsedByBlock(before: set<Word>, u: set<Word>, sb: Super, bm: Word, x: Word)
    requires UsedFor(before, u, sb, 1, 0) && ForBalloc(sb, bm)
    ensures UsedFor(before, u + {bm, x}, sb, x, 0)
  {
  }

  /** No block below n is free. */
  ghost predicate SetBelow(f: FileSys, n: nat)
    requires Shape(f)
  {
    forall x :: 0 <= x < n && x < f.sb.size ==> Bit(f, x)
  }

  lemma NothingBelow(f: FileSys)
    requires Shape(f)
    ensures SetBelow(f, 0)
  {
  }

  lemma SetBelowAre(f: FileSys, n: nat)
    requires Shape(f) && SetBelow(f, n)
    ensures forall x :: 0 <= x < n && x < f.sb.size ==> Bit(f, x)
  {
  }

  lemma AllSet(f: FileSys, n: nat, k: nat)
    requires Shape(f) && SetBelow(f, n) && (n < k ==> n >= f.sb.size)
    ensures SetBelow(f, k)
  {
    hide Bit;
  }

  lemma SameBitmapBlock(sb: Super, b: nat, bi: nat)
    requires b % BPB == 0 && bi < BPB
    ensures BitmapBlock(sb, b + bi) == BitmapBlock(sb, b) && (b + bi) % BPB == bi
  {
  }

  lemma BitmapLogged(sb: Super, b: nat)
    requires b < sb.size
    ensures ForBalloc(sb, 1) && ForBalloc(sb, BitmapBlock(sb, b))
  {
  }

  lemma FilledAt(f: FileSys, i: nat, n: nat, pos: nat)
    requires Shape(f) && i < f.sb.ninodes && Filled(f, i, n) && pos < n
    ensures pos / BSIZE < MAXFILE && Data(f, i, pos / BSIZE) != 0
  {
  }

  lemma SliceMore(c: seq<Byte>, off: nat, tot: nat, m: nat)
    requires off + tot + m <= |c|
    ensures c[off..off + (tot + m)] == c[off..off + tot] + c[off + tot..off + tot + m]
  {
  }

  lemma UsedNothing(u: set<Word>, sb: Super, ind: nat)
    ensures UsedOnly(u, u, sb, [], ind)
  {
  }

  /** Where the loop of writei stands: what it took, what the next block needs, what that says of all. */
  lemma NeedSoFar(f0: FileSys, f: FileSys, off: nat, tot: nat, total: nat)
    requires FetchedSoFar(f0, f, off, tot) && tot < total && OnBlock(off, tot, total) && off + total <= MAXFILE * BSIZE
    ensures var bn := (off + tot) / BSIZE;
            bn < MAXFILE && (Left(f) < Need(f, bn, bn + 1) ==> Left(f0) < WriteNeed(f0, off, total))
    ensures Short(f) == Short(f0)
  {
    hide Left, Need, Short, Fetched;
    var lo, hi := off / BSIZE, (off + total - 1) / BSIZE + 1;
    if tot == 0 {
      FetchedNothing(f0, lo);
      NeedTo(f0, f, lo, lo, hi);
    } else {
      assert (off + tot - 1) / BSIZE + 1 == (off + tot) / BSIZE;
      NeedTo(f0, f, lo, (off + tot) / BSIZE, hi);
    }
  }

  lemma NeedTo(f0: FileSys, f: FileSys, lo: nat, cur: nat, hi: nat)
    requires Fetched(f0, f, lo, cur) && cur < hi <= MAXFILE
    ensures Left(f) < Need(f, cur, cur + 1) ==> Left(f0) < Need(f0, lo, hi)
    ensures Short(f) == Short(f0)
  {
    hide Slot, Bit, Missing;
    NeedSplit(f0, f, lo, cur, cur + 1);
    NeedGrows(f0, lo, cur + 1, hi);
  }

  lemma FetchedLeft(f: FileSys, g: FileSys, lo: nat, hi: nat)
    requires Fetched(f, g, lo, hi)
    ensures Left(g) + Need(f, lo, hi) == Left(f)
  {
  }

  /** iupdate and the size take no block. */
  lemma FinishedFetched(f0: FileSys, f: FileSys, owner: Owner, off: nat, src: seq<Byte>, lo: nat, cur: nat)
    requires Fetched(f0, f, lo, cur) && Inv(f, owner) && off + |src| <= MAXFILE * BSIZE
    ensures Shape(Finished(f, off, |src|)) && Fetched(f0, Finished(f, off, |src|), lo, cur)
  {
    hide Owned, Marked, Filled, Slot, Bit, Missing, Fetched;
    FetchedFrame(f0, f, lo, cur);
    if |src| > 0 && off + |src| > f.ip.size {
      var r := Resized(f, off + |src|);
      ResizedInv(f, owner, off + |src|);
      UpdatedKeeps(r, owner);
      FetchedSame(f, r, cur);
      FetchedSame(r, Updated(r), cur);
      FetchedThen(f0, f, r, lo, cur, cur);
      FetchedThen(f0, r, Updated(r), lo, cur, cur);
    }
  }

  lemma WriteDone(f0: FileSys, fo: Owner, f: FileSys, owner: Owner, off: nat, src: seq<Byte>)
    requires Good(f0, fo) && Written(f0, f, owner, off, src, off + |src|) && FetchedSoFar(f0, f, off, |src|)
    ensures Inv(f, owner) && Left(f0) >= WriteNeed(f0, off, |src|)
    ensures var g := Finished(f, off, |src|);
            && Good(g, owner) && SameFrame(f0, g) && Spliced(f0, g, off, src)
  {
    hide Good, Contents, Size, Splice, Written, Inv, Fetched, Finished, Left, Need, Spliced;
    GoodInv(f0, fo);
    var lo, cur := off / BSIZE, if src == [] then off / BSIZE else (off + |src| - 1) / BSIZE + 1;
    WrittenBounds(f0, f, owner, off, src);
    FetchedNothing(f0, lo);
    FinishedIs(f0, f, owner, off, src);
    FinishedSplices(f0, fo, f, owner, off, src);
    GoodInv(Finished(f, off, |src|), owner);
    FinishedFetched(f0, f, owner, off, src, lo, cur);
    FetchedLeft(f0, f, lo, cur);
    SplicedIs(f0, Finished(f, off, |src|), off, src);
  }

  lemma WrittenBounds(f0: FileSys, f: FileSys, owner: Owner, off: nat, src: seq<Byte>)
    requires Written(f0, f, owner, off, src, off + |src|)
    ensures Shape(f0) && off + |src| <= MAXFILE * BSIZE && off / BSIZE <= MAXFILE
  {
  }

  lemma SplicedIs(f: FileSys, g: FileSys, off: nat, src: seq<Byte>)
    requires SameFrame(f, g) && Size(f, f.ip.inum) <= MAXFILE * BSIZE && Size(g, f.ip.inum) <= MAXFILE * BSIZE
    requires off <= Size(f, f.ip.inum) && Contents(g, f.ip.inum) == Splice(Contents(f, f.ip.inum), off, src)
    requires forall i :: 0 <= i < f.sb.ninodes && i != f.ip.inum ==>
               Size(f, i) <= MAXFILE * BSIZE && Size(g, i) == Size(f, i) && Contents(g, i) == Contents(f, i)
    requires src != [] ==> Fetched(f, g, off / BSIZE, (off + |src| - 1) / BSIZE + 1)
    ensures Spliced(f, g, off, src)
  {
    hide Size, Contents, Splice, Fetched;
  }

  lemma FetchedFrame(f: FileSys, g: FileSys, lo: nat, hi: nat)
    requires Fetched(f, g, lo, hi)
    ensures SameFrame(f, g) && lo <= hi <= MAXFILE
  {
  }

  lemma ChunkFetched(f: FileSys, g: FileSys, go: Owner, bn: nat, block: Block)
    requires Fetched(f, g, bn, bn + 1) && Inv(g, go) && Data(g, g.ip.inum, bn) != 0
    ensures Data(g, g.ip.inum, bn) < g.sb.size && Fetched(f, PutData(g, bn, block), bn, bn + 1)
  {
    hide Owned, Marked, Filled, Slot, Bit, Missing, Fetched;
    FetchedFrame(f, g, bn, bn + 1);
    PutDataKeeps(g, go, bn, block);
    FetchedSame(g, PutData(g, bn, block), bn + 1);
    FetchedThen(f, g, PutData(g, bn, block), bn, bn + 1, bn + 1);
  }

  lemma ChunkUsed(before: set<Word>, u: set<Word>, mid: set<Word>, after: set<Word>, touched: seq<nat>,
                  f: FileSys, fo: Owner, g: FileSys, go: Owner, bn: nat)
    requires Mapped(f, fo, g, go, bn) && UsedOnly(before, u, f.sb, touched, f.ip.addrs[NDIRECT])
    requires UsedFor(u, mid, f.sb, Data(g, g.ip.inum, bn), g.ip.addrs[NDIRECT])
    requires after == mid + {Data(g, g.ip.inum, bn)}
    ensures UsedOnly(before, after, f.sb, touched + [Data(g, g.ip.inum, bn) as nat], g.ip.addrs[NDIRECT])
  {
    var b: nat := Data(g, g.ip.inum, bn);
    GrownInv(f, fo, g, go);
    SlotInUse(g, go, DataSlot(bn));
    SlotBelowLog(g, go, DataSlot(bn));
    if g.ip.addrs[NDIRECT] != 0 {
      IndirectOwned(g, go);
      SlotBelowLog(g, go, INDIRECT);
    }
    hide Owned, Marked, Filled, DataKept, UsedOnly, UsedFor;
    BallocBelowLog(f);
    UsedMore(before, u, mid, after, touched, f.sb, f.ip.addrs[NDIRECT], g.ip.addrs[NDIRECT], b);
  }

  lemma BallocBelowLog(f: FileSys)
    requires Shape(f)
    ensures forall x: nat :: ForBalloc(f.sb, x) ==> x < LogStart(f.sb)
  {
  }

  lemma UsedMore(before: set<Word>, u: set<Word>, mid: set<Word>, after: set<Word>, touched: seq<nat>, sb: Super,
                 ind: nat, ind': nat, b: nat)
    requires UsedOnly(before, u, sb, touched, ind) && UsedFor(u, mid, sb, b, ind')
    requires b < 0x1_0000_0000 && after == mid + {b as Word} && b < LogStart(sb)
    requires (ind != 0 ==> ind == ind') && (ind' != 0 ==> ind' < LogStart(sb))
    requires forall x: nat :: ForBalloc(sb, x) ==> x < LogStart(sb)
    ensures UsedOnly(before, after, sb, touched + [b], ind')
  {
    hide ForBalloc, LogStart;
    var all := touched + [b];
    assert all[|touched|] == b;
    forall x | x in after && x !in before
      ensures x < LogStart(sb) && (ForBalloc(sb, x) || x as nat in all || (ind' != 0 && x == ind'))
    {
      if x as nat in touched {
        var j :| 0 <= j < |touched| && touched[j] == x;
        assert all[j] == x;
      }
    }
  }

  lemma SlotBelowLog(f: FileSys, owner: Owner, s: nat)
    requires Inv(f, owner) && s < SLOTS && Slot(f, f.ip.inum, s) != 0
    ensures Slot(f, f.ip.inum, s) < LogStart(f.sb)
  {
  }

  lemma FreeingInv(f0: FileSys, fo: Owner, f: FileSys, owner: Owner)
    requires Freeing(f0, fo, f, owner)
    ensures Inv(f, owner)
  {
  }

  lemma UnmarkKeepsData(f: FileSys, b: nat, x: nat)
    requires Shape(f) && b < f.sb.size && DataStart(f.sb) <= x < f.sb.size
    ensures MarkBit(f, b, false).blocks[x] == f.blocks[x]
  {
    BitmapBlocksNext(f, b);
  }

  lemma GoodInv(f: FileSys, owner: Owner)
    requires Good(f, owner)
    ensures Inv(f, owner) && Filled(f, f.ip.inum, f.ip.size) && f.ip.size <= MAXFILE * BSIZE
    ensures Size(f, f.ip.inum) == f.ip.size && Shape(f)
  {
  }

  lemma MappedSame(f: FileSys, fo: Owner, g: FileSys, go: Owner, bn: nat)
    requires Mapped(f, fo, g, go, bn) && Data(f, f.ip.inum, bn) != 0
    ensures g == f && go == fo && Data(f, f.ip.inum, bn) < f.sb.size
  {
    assert DataKept(f, g, f.ip.inum);
  }

  /** The part of a block that readi copies is the part of the file it is asked for. */
  lemma BlockIsContents(f: FileSys, i: nat, pos: nat, m: nat)
    requires Shape(f) && i < f.sb.ninodes && pos + m <= Size(f, i) <= MAXFILE * BSIZE && 0 < m <= BSIZE - pos % BSIZE
    requires Data(f, i, pos / BSIZE) < f.sb.size
    ensures f.blocks[Data(f, i, pos / BSIZE)][pos % BSIZE..pos % BSIZE + m] == Contents(f, i)[pos..pos + m]
  {
    hide Slot, Size;
    var b := f.blocks[Data(f, i, pos / BSIZE)];
    forall k | pos <= k < pos + m
      ensures Contents(f, i)[k] == b[pos % BSIZE + (k - pos)]
    {
      assert k / BSIZE == pos / BSIZE && k % BSIZE == pos % BSIZE + (k - pos);
    }
  }

  lemma MappedShape(f: FileSys, fo: Owner, g: FileSys, go: Owner, bn: nat)
    requires Mapped(f, fo, g, go, bn)
    ensures Inv(g, go) && 0 != Data(g, g.ip.inum, bn) < g.sb.size
  {
    SlotInUse(g, go, DataSlot(bn));
  }

  lemma ChunkFacts(f: FileSys, fo: Owner, g: FileSys, go: Owner, bn: nat, block: Block)
    requires Mapped(f, fo, g, go, bn)
    ensures Data(g, g.ip.inum, bn) < g.sb.size
    ensures var h := PutData(g, bn, block);
            && h == g.(blocks := g.blocks[Data(g, g.ip.inum, bn) := block])
            && Inv(h, go) && Data(h, g.ip.inum, bn) == Data(g, g.ip.inum, bn)
    ensures f.ip.addrs[NDIRECT] != 0 ==> g.ip.addrs[NDIRECT] == f.ip.addrs[NDIRECT]
  {
    PutDataKeeps(g, go, bn, block);
  }

  lemma FinishedIs(f0: FileSys, f: FileSys, owner: Owner, off: nat, src: seq<Byte>)
    requires Written(f0, f, owner, off, src, off + |src|)
    ensures Inv(f, owner) && f.ip.size == f0.ip.size && off <= f0.ip.size && off + |src| <= MAXFILE * BSIZE
    ensures Shape(f)
    ensures Finished(f, off, |src|)
            == if |src| > 0 && off + |src| > f.ip.size then Updated(Resized(f, off + |src|)) else f
  {
  }

  lemma OthersAre(f: FileSys, g: FileSys)
    requires SameFrame(f, g)
    requires forall i :: 0 <= i < f.sb.ninodes && i != f.ip.inum ==>
               Size(f, i) <= MAXFILE * BSIZE && Size(g, i) == Size(f, i) && Contents(g, i) == Contents(f, i)
    ensures OthersKept(f, g)
  {
    hide Size, Contents;
  }

  lemma LogClearKept(f: FileSys, g: FileSys)
    requires LogBitsKept(f, g)
    ensures LogClear(g) <==> LogClear(f)
  {
    hide Bit;
  }

  /** itrunc uses the super block, the bitmap, the inode block and the indirect block. */
  lemma TruncStep(f: FileSys, fo: Owner, ops: seq<Op>, g: FileSys)
    requires Inv(f, fo) && Script(f.blocks, ops) && Held(ops) == {}
    requires forall i :: 0 <= i < |Puts(ops)| ==> Puts(ops)[i].sector < |f.blocks|
    requires g.blocks == Transactions.Apply(f.blocks, Puts(ops))
    requires forall x :: x in Used(ops) ==>
               ForBalloc(f.sb, x) || x == InodeBlock(f.ip.inum) || x == f.ip.addrs[NDIRECT]
    ensures Step(f, ops, g)
  {
    var ind := f.ip.addrs[NDIRECT];
    SlotOrNone(f, fo, INDIRECT);
    InodeBlocksFirst(f, f.ip.inum);
    hide Owned, Marked, Filled, Script, Puts, Used, Held;
    forall x | x in Used(ops) ensures x < LogStart(f.sb) {
    }
    if f.sb.size <= BPB {
      var all := [1, BitmapStart(f.sb), InodeBlock(f.ip.inum), ind];
      forall x | x in Used(ops) ensures x as nat in all {
        assert all[0] == 1 && all[1] == BitmapStart(f.sb) && all[2] == InodeBlock(f.ip.inum) && all[3] == ind;
      }
      ListBounds(Used(ops), all);
    }
  }

  lemma SlotOrNone(f: FileSys, owner: Owner, s: nat)
    requires Inv(f, owner) && s < SLOTS
    ensures Slot(f, f.ip.inum, s) < LogStart(f.sb)
  {
    if Slot(f, f.ip.inum, s) != 0 {
      SlotBelowLog(f, owner, s);
    }
  }

  // ----- a chunk of filewrite -----

  /** Every file but the locked one is what it was. */
  ghost predicate OthersKept(f0: FileSys, f: FileSys) {
    && SameFrame(f0, f)
    && forall i :: 0 <= i < f0.sb.ninodes && i != f0.ip.inum ==>
         Size(f0, i) <= MAXFILE * BSIZE && Size(f, i) == Size(f0, i) && Contents(f, i) == Contents(f0, i)
  }

  /** What writei's answer tells. */
  ghost predicate Answered(f: FileSys, off: nat, n: nat, w: WriteResult)
    requires Shape(f)
  {
    && (w.Refused? <==> off > f.ip.size || off + n > MAXFILE * BSIZE)
    && (!w.Refused? ==> (w.Wrote? <==> Left(f) >= WriteNeed(f, off, n)))
    && (w.TookLogSector? ==> LogClear(f)) && (w.OutOfBlocks? ==> !LogClear(f))
  }

  /** f has become g by writing src at off: the file is spliced, the others are kept, and the write took
      the blocks that were missing. */
  ghost predicate Spliced(f: FileSys, g: FileSys, off: nat, src: seq<Byte>) {
    && OthersKept(f, g)
    && Size(f, f.ip.inum) <= MAXFILE * BSIZE && Size(g, f.ip.inum) <= MAXFILE * BSIZE
    && off <= Size(f, f.ip.inum) && Contents(g, f.ip.inum) == Splice(Contents(f, f.ip.inum), off, src)
    && (src != [] ==> Fetched(f, g, off / BSIZE, (off + |src| - 1) / BSIZE + 1))
  }

  /** One transaction: its operations on buffers take the blocks from one stage to the next, use home
      sectors only, and with one bitmap block no more than eight. */
  ghost predicate Step(f: FileSys, ops: seq<Op>, g: FileSys) {
    && Shape(f) && Script(f.blocks, ops) && Held(ops) == {}
    && (forall i :: 0 <= i < |Puts(ops)| ==> Puts(ops)[i].sector < |f.blocks|)
    && g.blocks == Transactions.Apply(f.blocks, Puts(ops))
    && (forall x :: x in Used(ops) ==> x < LogStart(f.sb))
    && (f.sb.size <= BPB ==> |Used(ops)| <= 8)
  }

  /** An open transaction in which balloc has failed: its operations so far, on home sectors only if home
      is set, and with one bitmap block on no more than eight of them. */
  ghost predicate Stopped(f: FileSys, ops: seq<Op>, home: bool) {
    && Shape(f) && Script(f.blocks, ops)
    && (home ==> forall x :: x in Used(ops) ==> x < LogStart(f.sb))
    && (f.sb.size <= BPB ==> |HomeOf(Used(ops), LogStart(f.sb))| <= 8)
  }

  lemma StopDone(f: FileSys, ops: seq<Op>, off: nat, n: nat, before: set<Word>, home: bool)
    requires before == {} && Shape(f) && Script(f.blocks, ops) && n <= CHUNK
    requires if home then UsedFew(before, Used(ops), f.sb, 4 + Span(off, off + n))
             else HomeFew(before, Used(ops), f.sb, 4 + Span(off, off + n))
    ensures Stopped(f, ops, home)
  {
    ChunkSpan(off, n);
    assert Used(ops) - before == Used(ops);
    if home {
      assert HomeOf(Used(ops), LogStart(f.sb)) == Used(ops);
    }
  }

  /** A transaction that writes src at off. */
  ghost predicate ChunkDone(f: FileSys, ops: seq<Op>, g: FileSys, off: nat, src: seq<Byte>) {
    src != [] && Spliced(f, g, off, src) && Step(f, ops, g)
  }

  /** The transaction of a chunk, from what writei says of it. */
  lemma StepDone(f: FileSys, ops: seq<Op>, g: FileSys, off: nat, n: nat, before: set<Word>)
    requires before == {} && Shape(f) && Script(f.blocks, ops) && Held(ops) == {} && n <= CHUNK
    requires forall i :: 0 <= i < |Puts(ops)| ==> Puts(ops)[i].sector < |f.blocks|
    requires g.blocks == Transactions.Apply(f.blocks, Puts(ops))
    requires UsedFew(before, Used(ops), f.sb, 4 + Span(off, off + n))
    ensures Step(f, ops, g)
  {
    ChunkSpan(off, n);
    assert Used(ops) - before == Used(ops);
  }

  /** A chunk touches at most four blocks, wherever it starts. */
  lemma ChunkSpan(off: nat, n: nat)
    requires n <= CHUNK
    ensures Span(off, off + n) <= 4
  {
  }

  lemma GoodFacts(f: FileSys, owner: Owner)
    requires Good(f, owner)
    ensures Shape(f) && f.ip.size == Size(f, f.ip.inum) <= MAXFILE * BSIZE
    ensures |Contents(f, f.ip.inum)| == f.ip.size
    ensures OthersKept(f, f)
  {
  }
}
