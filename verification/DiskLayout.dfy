/** Where the file system keeps what it keeps, by byte and bit addresses on the disk. */
module DiskLayout {
  import opened Basics
  import opened Blocks
  import opened FileState
  import opened FileSteps
  import opened RedoLog

  /** The byte at an address of the disk. */
  function DiskByte(d: seq<Block>, a: nat): Byte
    requires a / 512 < |d|
  {
    d[a / 512][a % 512]
  }

  /** The little-endian uint there. */
  function DiskUint(d: seq<Block>, a: nat): nat
    requires (a + 3) / 512 < |d|
  {
    LittleEndian(DiskByte(d, a), DiskByte(d, a + 1), DiskByte(d, a + 2), DiskByte(d, a + 3))
  }

  function LittleEndian(p: nat, q: nat, r: nat, s: nat): nat {
    p + 0x100 * q + 0x1_0000 * r + 0x100_0000 * s
  }

  /** Bit k of the disk, least significant first in each byte. */
  predicate DiskBit(d: seq<Block>, k: nat)
    requires k / 4096 < |d|
  {
    var b := DiskByte(d, k / 8);
    b / [1, 2, 4, 8, 16, 32, 64, 128][k % 8] % 2 == 1
  }

  // ----- words and bits of a block -----

  lemma WordBytes(b: Block, k: nat)
    requires k < 128
    ensures GetWord(b, k) == LittleEndian(b[4 * k], b[4 * k + 1], b[4 * k + 2], b[4 * k + 3])
  {
    var s := b[4 * k..4 * k + 4];
    assert s == [s[0], s[1], s[2], s[3]];
    FourBytes(s[0], s[1], s[2], s[3]);
  }

  lemma FourBytes(p: Byte, q: Byte, r: Byte, s: Byte)
    ensures Value([p, q, r, s]) == LittleEndian(p, q, r, s)
  {
    assert [p, q, r, s][1..] == [q, r, s] && [q, r, s][1..] == [r, s] && [r, s][1..] == [s] && [s][1..] == [];
    assert Value([s]) == s;
    assert Value([r, s]) == r + 256 * s;
    assert Value([q, r, s]) == q + 256 * (r + 256 * s);
  }

  lemma InSector(s: nat, o: nat)
    requires o < 512
    ensures (512 * s + o) / 512 == s && (512 * s + o) % 512 == o
  {
  }

  lemma WordOnDisk(d: seq<Block>, s: nat, k: nat)
    requires s < |d| && k < 128
    ensures GetWord(d[s], k) == DiskUint(d, 512 * s + 4 * k)
  {
    WordBytes(d[s], k);
    InSector(s, 4 * k);
    InSector(s, 4 * k + 1);
    InSector(s, 4 * k + 2);
    InSector(s, 4 * k + 3);
    hide GetWord;
  }

  lemma BitBytes(x: Byte, i: nat)
    requires i < 8
    ensures TestBit(x, i) <==> x / [1, 2, 4, 8, 16, 32, 64, 128][i] % 2 == 1
  {
    HalvedTo(x);
  }

  lemma HalvedTo(x: nat)
    ensures TestBit(x, 0) <==> x % 2 == 1
    ensures TestBit(x, 1) <==> x / 2 % 2 == 1
    ensures TestBit(x, 2) <==> x / 4 % 2 == 1
    ensures TestBit(x, 3) <==> x / 8 % 2 == 1
    ensures TestBit(x, 4) <==> x / 16 % 2 == 1
    ensures TestBit(x, 5) <==> x / 32 % 2 == 1
    ensures TestBit(x, 6) <==> x / 64 % 2 == 1
    ensures TestBit(x, 7) <==> x / 128 % 2 == 1
  {
    var a := x / 2;
    var b := a / 2;
    var c := b / 2;
    var d := c / 2;
    var e := d / 2;
    var f := e / 2;
    var g := f / 2;
    assert b == x / 4 && c == x / 8 && d == x / 16 && e == x / 32 && f == x / 64 && g == x / 128;
    assert TestBit(f, 1) <==> TestBit(g, 0);
    assert TestBit(e, 2) <==> TestBit(f, 1);
    assert TestBit(d, 3) <==> TestBit(e, 2);
    assert TestBit(c, 4) <==> TestBit(d, 3);
    assert TestBit(b, 5) <==> TestBit(c, 4);
    assert TestBit(a, 6) <==> TestBit(b, 5);
  }

  // ----- inodes -----

  /** The inodes lie one behind the other from sector 2 on, 64 bytes each: word w of inode i is at byte
      1024 + 64 * i + 4 * w. */
  lemma InodesFrom2(f: FileSys, i: nat, w: nat)
    requires Shape(f) && i < f.sb.ninodes && w < 16
    ensures 1024 + 64 * i + 63 < 512 * |f.blocks|
    ensures DiskWord(f, i, w) == DiskUint(f.blocks, 1024 + 64 * i + 4 * w)
  {
    InodeBlocksFirst(f, i);
    InodePlace(i, w);
    WordOnDisk(f.blocks, InodeBlock(i), InodeWord(i, w));
    hide GetWord, DiskUint;
  }

  lemma InodePlace(i: nat, w: nat)
    requires w < 16
    ensures 512 * InodeBlock(i) + 4 * InodeWord(i, w) == 1024 + 64 * i + 4 * w
  {
  }

  /** Between sector 2 and the bitmap every sector holds its eight inodes; behind them is the bitmap, one
      bit for a sector, and behind that are the data blocks; all of that is below the log. */
  lemma Regions(f: FileSys, owner: Owner)
    requires Inv(f, owner)
    ensures forall i :: 0 <= i < f.sb.ninodes ==>
              var s := InodeBlock(i); 2 <= s < f.sb.ninodes / 8 + 3 && 8 * (s - 2) <= i < 8 * (s - 2) + 8
    ensures forall b :: 0 <= b < f.sb.size ==>
              f.sb.ninodes / 8 + 3 <= BitmapBlock(f.sb, b) <= f.sb.ninodes / 8 + 3 + f.sb.size / 4096
    ensures forall b :: b in owner ==> f.sb.ninodes / 8 + 3 + f.sb.size / 4096 < b < f.sb.size - f.sb.nlog
  {
    hide Marked, Filled, Slot;
  }

  /** Block b is in use if bit b of the bitmap is set. */
  lemma BitmapBehindInodes(f: FileSys, b: nat)
    requires Shape(f) && b < f.sb.size
    ensures (4096 * (f.sb.ninodes / 8 + 3) + b) / 4096 < |f.blocks|
    ensures Bit(f, b) <==> DiskBit(f.blocks, 4096 * (f.sb.ninodes / 8 + 3) + b)
  {
    var k := 4096 * (f.sb.ninodes / 8 + 3) + b;
    var s := BitmapBlock(f.sb, b);
    BitmapBlocksNext(f, b);
    assert k == 4096 * s + b % 4096;
    assert k / 8 == 512 * s + b % 4096 / 8 && k % 8 == b % 4096 % 8;
    assert k / 8 / 512 == s && k / 8 % 512 == b % 4096 / 8;
    BitBytes(f.blocks[s][b % 4096 / 8], b % 4096 % 8);
    hide TestBit;
  }

  /** iupdate, by addresses: the inode's 64 bytes are what is in memory, and no other byte of the disk
      changes. */
  ghost predicate InodeWritten(d: seq<Block>, e: seq<Block>, ip: Inode)
    requires |ip.addrs| == 13
  {
    var a := 1024 + 64 * ip.inum;
    && |e| == |d| && a + 63 < 512 * |d|
    && DiskUint(e, a) == ip.meta0 && DiskUint(e, a + 4) == ip.meta1 && DiskUint(e, a + 8) == ip.size
    && (forall s :: 0 <= s < 13 ==> DiskUint(e, a + 12 + 4 * s) == ip.addrs[s])
    && (forall k :: 0 <= k < 512 * |d| && !(a <= k < a + 64) ==> DiskByte(e, k) == DiskByte(d, k))
  }

  lemma UpdatedBytes(f: FileSys)
    requires Shape(f)
    ensures InodeWritten(f.blocks, Updated(f).blocks, f.ip)
  {
    hide DiskUint, DiskByte, Updated;
    var a := 1024 + 64 * f.ip.inum;
    OneField(f, 0);
    OneField(f, 1);
    OneField(f, 2);
    forall s | 0 <= s < 13 ensures DiskUint(Updated(f).blocks, a + 12 + 4 * s) == f.ip.addrs[s] {
      OneField(f, 3 + s);
    }
    forall k | 0 <= k < 512 * |f.blocks| && !(a <= k < a + 64)
      ensures DiskByte(Updated(f).blocks, k) == DiskByte(f.blocks, k)
    {
      OtherByte(f, k);
    }
  }

  lemma OneField(f: FileSys, w: nat)
    requires Shape(f) && w < 16
    ensures |Updated(f).blocks| == |f.blocks| && 1024 + 64 * f.ip.inum + 63 < 512 * |f.blocks|
    ensures DiskUint(Updated(f).blocks, 1024 + 64 * f.ip.inum + 4 * w)
            == if w == 0 then f.ip.meta0 else if w == 1 then f.ip.meta1 else if w == 2 then f.ip.size
               else f.ip.addrs[w - 3]
  {
    hide DiskUint, DiskWord, Updated;
    UpdatedWords(f, f.ip.inum, w);
    UpdatedSize(f);
    InodesFrom2(Updated(f), f.ip.inum, w);
  }

  lemma UpdatedSize(f: FileSys)
    requires Shape(f)
    ensures Updated(f).sb == f.sb && Updated(f).ip == f.ip && |Updated(f).blocks| == |f.blocks|
  {
  }

  lemma OtherByte(f: FileSys, k: nat)
    requires Shape(f) && k < 512 * |f.blocks| && !(1024 + 64 * f.ip.inum <= k < 1024 + 64 * f.ip.inum + 64)
    ensures |Updated(f).blocks| == |f.blocks| && DiskByte(Updated(f).blocks, k) == DiskByte(f.blocks, k)
  {
    var ib := InodeBlock(f.ip.inum);
    InodeBlocksFirst(f, f.ip.inum);
    if k / 512 == ib {
      InodePlace(f.ip.inum, 0);
      PutInodeBytes(f.blocks[ib], f.ip, 16, k % 512);
    }
    hide PutInode, InodeBlock, InodeWord;
  }

  lemma {:induction false} PutInodeBytes(b: Block, ip: Inode, n: nat, k: nat)
    requires n <= 16 && |ip.addrs| == NDIRECT + 1 && k < 512
    requires !(4 * InodeWord(ip.inum, 0) <= k < 4 * InodeWord(ip.inum, 0) + 4 * n)
    ensures PutInode(b, ip, n)[k] == b[k]
  {
    if n > 0 {
      PutInodeBytes(b, ip, n - 1, k);
      SetWordBytes(PutInode(b, ip, n - 1), InodeWord(ip.inum, n - 1), InodeField(ip, n - 1), k);
    }
  }

  lemma SetWordBytes(b: Block, w: nat, x: Word, k: nat)
    requires w < WORDS && k < 512 && !(4 * w <= k < 4 * w + 4)
    ensures SetWord(b, w, x)[k] == b[k]
  {
  }

  // ----- files -----

  /** Byte k of file i, by addresses: the inode names the sectors of the first twelve 512 bytes, and one
      that names the others. */
  lemma FileOnDisk(f: FileSys, owner: Owner, i: nat, k: nat)
    requires Good(f, owner) && i < f.sb.ninodes
    ensures Size(f, i) <= MAXFILE * BSIZE && 1024 + 64 * i + 63 < 512 * |f.blocks|
    ensures Size(f, i) == DiskUint(f.blocks, 1024 + 64 * i + 8)
    ensures k < Size(f, i) ==>
              var d, a := f.blocks, 1024 + 64 * i;
              var bn := k / 512;
              && (bn < 12 ==>
                    var s := DiskUint(d, a + 12 + 4 * bn);
                    s < |d| && Contents(f, i)[k] == DiskByte(d, 512 * s + k % 512))
              && (bn >= 12 ==>
                    var ind := DiskUint(d, a + 60);
                    && bn < 140 && ind < |d|
                    && var s := DiskUint(d, 512 * ind + 4 * (bn - 12));
                       s < |d| && Contents(f, i)[k] == DiskByte(d, 512 * s + k % 512))
  {
    SizeOnDisk(f, owner, i);
    if k < Size(f, i) {
      ByteOnDisk(f, owner, i, k);
    }
  }

  lemma SizeOnDisk(f: FileSys, owner: Owner, i: nat)
    requires Good(f, owner) && i < f.sb.ninodes
    ensures Size(f, i) <= MAXFILE * BSIZE && 1024 + 64 * i + 63 < 512 * |f.blocks|
    ensures Size(f, i) == DiskUint(f.blocks, 1024 + 64 * i + 8)
    ensures forall s :: 0 <= s <= NDIRECT ==> Addr(f, i, s) == DiskUint(f.blocks, 1024 + 64 * i + 12 + 4 * s)
    ensures Filled(f, i, Size(f, i))
  {
    hide DiskUint, Owned, Marked, Filled;
    InodesFrom2(f, i, 2);
    forall s | 0 <= s <= NDIRECT ensures Addr(f, i, s) == DiskUint(f.blocks, 1024 + 64 * i + 12 + 4 * s) {
      InodesFrom2(f, i, 3 + s);
      assert 1024 + 64 * i + 4 * (3 + s) == 1024 + 64 * i + 12 + 4 * s;
    }
    FilledSize(f, i);
  }

  lemma FilledSize(f: FileSys, i: nat)
    requires Shape(f) && i < f.sb.ninodes && Filled(f, i, Size(f, i))
    ensures Size(f, i) <= MAXFILE * BSIZE
  {
  }

  lemma ByteOnDisk(f: FileSys, owner: Owner, i: nat, k: nat)
    requires Good(f, owner) && i < f.sb.ninodes && Size(f, i) <= MAXFILE * BSIZE && k < Size(f, i)
    ensures 1024 + 64 * i + 63 < 512 * |f.blocks|
    ensures var d, a := f.blocks, 1024 + 64 * i;
            var bn := k / 512;
            && (bn < 12 ==>
                  var s := DiskUint(d, a + 12 + 4 * bn);
                  s < |d| && Contents(f, i)[k] == DiskByte(d, 512 * s + k % 512))
            && (bn >= 12 ==>
                  var ind := DiskUint(d, a + 60);
                  && bn < 140 && ind < |d|
                  && var s := DiskUint(d, 512 * ind + 4 * (bn - 12));
                     s < |d| && Contents(f, i)[k] == DiskByte(d, 512 * s + k % 512))
  {
    hide DiskUint, GetWord, Marked;
    var bn := k / 512;
    SizeOnDisk(f, owner, i);
    var s: nat := Data(f, i, bn);
    DataBelow(f, owner, i, bn);
    assert (512 * s + k % 512) / 512 == s && (512 * s + k % 512) % 512 == k % 512;
    if bn >= 12 {
      var ind: nat := Addr(f, i, NDIRECT);
      assert f.dead == 0;
      WordOnDisk(f.blocks, ind, bn - 12);
    }
  }

  lemma DataBelow(f: FileSys, owner: Owner, i: nat, bn: nat)
    requires Good(f, owner) && i < f.sb.ninodes && bn < MAXFILE && bn * BSIZE < Size(f, i) && Filled(f, i, Size(f, i))
    ensures 0 < Data(f, i, bn) < f.sb.size && Data(f, i, bn) == Slot(f, i, if bn < 12 then bn else bn + 1)
    ensures bn >= 12 ==> 0 < Addr(f, i, NDIRECT) < f.sb.size
  {
    hide Marked;
    assert Data(f, i, bn) != 0;
    assert Slot(f, i, DataSlot(bn)) in owner;
  }

  // ----- the log -----

  /** The header of the log: the count, and then the sectors. */
  lemma HeaderOnDisk(d: seq<Block>, start: nat, secs: seq<Word>)
    requires start < |d| && |secs| <= LOGSIZE
    ensures var e := d[start := HeaderBlock(d[start], secs)];
            && DiskUint(e, 512 * start) == |secs|
            && forall k :: 0 <= k < |secs| ==> DiskUint(e, 512 * start + 4 + 4 * k) == secs[k]
  {
    hide DiskUint, GetWord, HeaderBlock;
    var e := d[start := HeaderBlock(d[start], secs)];
    HeaderWords(d[start], secs);
    WordOnDisk(e, start, 0);
    forall k | 0 <= k < |secs| ensures DiskUint(e, 512 * start + 4 + 4 * k) == secs[k] {
      WordOnDisk(e, start, 1 + k);
      assert 512 * start + 4 * (1 + k) == 512 * start + 4 + 4 * k;
    }
  }

  /** What recovery takes from it: the count is an int, so one of 2^31 or more is none. */
  lemma HeaderRead(d: seq<Block>, start: nat)
    requires start < |d| && HeaderCount(d[start]) <= 10
    ensures var n := DiskUint(d, 512 * start);
            HeaderCount(d[start]) == if n < 0x8000_0000 then n else 0
    ensures |HeaderSectors(d[start])| == HeaderCount(d[start])
    ensures forall k :: 0 <= k < |HeaderSectors(d[start])| ==>
              HeaderSectors(d[start])[k] == DiskUint(d, 512 * start + 4 + 4 * k)
  {
    hide DiskUint, GetWord;
    WordOnDisk(d, start, 0);
    forall k | 0 <= k < |HeaderSectors(d[start])|
      ensures HeaderSectors(d[start])[k] == DiskUint(d, 512 * start + 4 + 4 * k)
    {
      WordOnDisk(d, start, 1 + k);
      assert 512 * start + 4 * (1 + k) == 512 * start + 4 + 4 * k;
    }
  }

  lemma HeaderWords(b: Block, secs: seq<Word>)
    requires |secs| <= LOGSIZE
    ensures GetWord(HeaderBlock(b, secs), 0) == |secs|
    ensures forall k :: 0 <= k < |secs| ==> GetWord(HeaderBlock(b, secs), 1 + k) == secs[k]
  {
    hide GetWord, SetWord, PutSectors;
    var z := SetWord(b, 0, |secs|);
    PutSectorsAt(z, secs, |secs|, 0);
    GetSetWord(b, 0, |secs|, 0);
    forall k | 0 <= k < |secs| ensures GetWord(HeaderBlock(b, secs), 1 + k) == secs[k] {
      PutSectorsAt(z, secs, |secs|, 1 + k);
    }
  }
}
