/** The on-disk structures of fs.h and fs.c as a value: super block, inode blocks, bitmap,
    direct and indirect blocks, and the one inode that is locked in memory. */
module FileState {
  import opened Basics
  import opened Blocks

  const NDIRECT: nat := 12
  const NINDIRECT: nat := 128
  const MAXFILE: nat := 140        // blocks, NDIRECT + NINDIRECT
  const IPB: nat := 8              // inodes per block
  const BPB: nat := 4096           // bitmap bits per block
  const SLOTS: nat := 141          // addrs[0..12], then the entries of the indirect block
  const INDIRECT: nat := 12        // the slot of the indirect block itself

  datatype Super = Super(size: nat, ninodes: nat, nlog: nat)

  /** struct inode: two words hold type, major, minor and nlink. */
  datatype Inode = Inode(inum: nat, meta0: Word, meta1: Word, size: Word, addrs: seq<Word>)

  /** The disk as bread sees it, the locked inode, and how many entries of its indirect
      block itrunc has already freed. */
  datatype FileSys = FileSys(sb: Super, blocks: seq<Block>, ip: Inode, dead: nat)

  // ----- layout -----

  function InodeBlock(i: nat): nat {
    i / IPB + 2
  }

  function BitmapStart(sb: Super): nat {
    sb.ninodes / IPB + 3
  }

  function BitmapBlock(sb: Super, b: nat): nat {
    b / BPB + BitmapStart(sb)
  }

  function DataStart(sb: Super): nat {
    BitmapStart(sb) + sb.size / BPB + 1
  }

  function LogStart(sb: Super): int {
    sb.size - sb.nlog
  }

  /** Blocks no file may own: boot, super block, inodes, bitmap and log. */
  predicate Meta(sb: Super, b: nat) {
    b < DataStart(sb) || b >= LogStart(sb)
  }

  ghost predicate Shape(f: FileSys) {
    && DataStart(f.sb) <= LogStart(f.sb)
    && |f.blocks| == f.sb.size < 0x1_0000_0000
    && f.ip.inum < f.sb.ninodes
    && |f.ip.addrs| == NDIRECT + 1
    && f.dead <= NINDIRECT
  }

  // ----- block pointers -----

  /** Where word w of dinode i lies in its block. */
  function InodeWord(i: nat, w: nat): (k: nat)
    requires w < 16
    ensures k < WORDS
  {
    16 * (i % IPB) + w
  }

  function DiskWord(f: FileSys, i: nat, w: nat): Word
    requires Shape(f) && i < f.sb.ninodes && w < 16
  {
    GetWord(f.blocks[InodeBlock(i)], InodeWord(i, w))
  }

  /** addrs[s] of inode i: in memory for the locked inode, on disk for the others. */
  function Addr(f: FileSys, i: nat, s: nat): Word
    requires Shape(f) && i < f.sb.ninodes && s <= NDIRECT
  {
    if i == f.ip.inum then f.ip.addrs[s] else DiskWord(f, i, 3 + s)
  }

  function Size(f: FileSys, i: nat): Word
    requires Shape(f) && i < f.sb.ninodes
  {
    if i == f.ip.inum then f.ip.size else DiskWord(f, i, 2)
  }

  /** Everything inode i points to, or 0: slots 0..12 are addrs, slot 13+j is entry j of the indirect block. */
  function Slot(f: FileSys, i: nat, s: nat): Word
    requires Shape(f) && i < f.sb.ninodes && s < SLOTS
  {
    if s <= NDIRECT then Addr(f, i, s)
    else
      var ind := Addr(f, i, NDIRECT);
      if ind == 0 || ind >= f.sb.size || (i == f.ip.inum && s - 13 < f.dead) then 0
      else GetWord(f.blocks[ind], s - 13)
  }

  /** The slot of the bn-th block of a file. */
  function DataSlot(bn: nat): (s: nat)
    requires bn < MAXFILE
    ensures s < SLOTS && s != INDIRECT
  {
    if bn < NDIRECT then bn else bn + 1
  }

  /** The bn-th data block of inode i, 0 if there is none. */
  function Data(f: FileSys, i: nat, bn: nat): Word
    requires Shape(f) && i < f.sb.ninodes && bn < MAXFILE
  {
    Slot(f, i, DataSlot(bn))
  }

  // ----- the bitmap -----

  predicate Bit(f: FileSys, b: nat)
    requires Shape(f) && b < f.sb.size
  {
    GetBit(f.blocks[BitmapBlock(f.sb, b)], b % BPB)
  }

  // ----- the invariant -----

  /** The unique inode and slot that point to each block in use. */
  type Owner = map<nat, (nat, nat)>

  /** Every pointer is recorded in owner, and every record is a pointer: no block has two owners. */
  ghost predicate Owned(f: FileSys, owner: Owner)
    requires Shape(f)
  {
    && (forall i, s :: 0 <= i < f.sb.ninodes && 0 <= s < SLOTS && Slot(f, i, s) != 0 ==>
          Slot(f, i, s) in owner && owner[Slot(f, i, s)] == (i, s))
    && (forall b :: b in owner ==>
          && !Meta(f.sb, b)
          && owner[b].0 < f.sb.ninodes && owner[b].1 < SLOTS
          && Slot(f, owner[b].0, owner[b].1) == b)
  }

  /** The set bits of the bitmap below the log are the metadata and the owned blocks. Of the bits of
      the log itself nothing is asked: mkfs leaves them clear. */
  ghost predicate Marked(f: FileSys, owner: Owner)
    requires Shape(f)
  {
    forall b :: 0 <= b < LogStart(f.sb) ==> (Bit(f, b) <==> Meta(f.sb, b) || b in owner)
  }

  /** The first n bytes of inode i have their blocks. */
  ghost predicate Filled(f: FileSys, i: nat, n: nat)
    requires Shape(f) && i < f.sb.ninodes
  {
    n <= MAXFILE * BSIZE && forall bn :: 0 <= bn < MAXFILE && bn * BSIZE < n ==> Data(f, i, bn) != 0
  }

  ghost predicate Inv(f: FileSys, owner: Owner) {
    && Shape(f)
    && Owned(f, owner)
    && Marked(f, owner)
    && forall i :: 0 <= i < f.sb.ninodes && i != f.ip.inum ==> Filled(f, i, Size(f, i))
  }

  /** The in-memory inode equals the one on disk. */
  ghost predicate Synced(f: FileSys)
    requires Shape(f)
  {
    && DiskWord(f, f.ip.inum, 0) == f.ip.meta0
    && DiskWord(f, f.ip.inum, 1) == f.ip.meta1
    && DiskWord(f, f.ip.inum, 2) == f.ip.size
    && forall s :: 0 <= s <= NDIRECT ==> DiskWord(f, f.ip.inum, 3 + s) == f.ip.addrs[s]
  }

  /** The locked inode is good: every byte below its size has a block. */
  ghost predicate Good(f: FileSys, owner: Owner) {
    Inv(f, owner) && f.dead == 0 && Filled(f, f.ip.inum, f.ip.size) && Synced(f)
  }

  // ----- file contents -----

  function ByteAt(f: FileSys, i: nat, k: nat): Byte
    requires Shape(f) && i < f.sb.ninodes && k < MAXFILE * BSIZE
  {
    var b := Data(f, i, k / BSIZE);
    if b < f.sb.size then f.blocks[b][k % BSIZE] else 0
  }

  function Contents(f: FileSys, i: nat): (c: seq<Byte>)
    requires Shape(f) && i < f.sb.ninodes && Size(f, i) <= MAXFILE * BSIZE
    ensures |c| == Size(f, i)
  {
    seq(Size(f, i), k requires 0 <= k < Size(f, i) => ByteAt(f, i, k))
  }

  /** The byte sequence c with bs written at offset off. */
  function Splice(c: seq<Byte>, off: nat, bs: seq<Byte>): (r: seq<Byte>)
    requires off <= |c|
    ensures |r| == if off + |bs| > |c| then off + |bs| else |c|
  {
    c[..off] + bs + if off + |bs| < |c| then c[off + |bs|..] else []
  }
}
