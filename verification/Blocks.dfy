/** Disk sectors as raw bytes, and the two ways the kernel reads them:
    as little-endian 32-bit words (`uint*` casts) and as a bitmap. */
module Blocks {
  import opened Basics

  const BSIZE: nat := 512
  const WORDS: nat := 128  // words in a sector, BSIZE / sizeof(uint)
  const BITS: nat := 4096  // bits in a sector, BSIZE * 8

  type Byte = x: int | 0 <= x < 256
  type Block = b: seq<Byte> | |b| == BSIZE witness seq(512, _ => 0)

  function Zeros(n: nat): (s: seq<Byte>)
    ensures |s| == n && forall i :: 0 <= i < n ==> s[i] == 0
  {
    seq(n, _ => 0)
  }

  const ZERO_BLOCK: Block := Zeros(BSIZE)

  // ----- 32-bit words -----

  /** The value of a little-endian byte string. */
  function Value(s: seq<Byte>): nat {
    if s == [] then 0 else s[0] + 256 * Value(s[1..])
  }

  /** The n low bytes of v, least significant first. */
  function Bytes(v: nat, n: nat): (s: seq<Byte>)
    ensures |s| == n
  {
    if n == 0 then [] else [v % 256] + Bytes(v / 256, n - 1)
  }

  function Pow256(n: nat): nat {
    if n == 0 then 1 else 256 * Pow256(n - 1)
  }

  lemma {:induction false} ValueBound(s: seq<Byte>)
    ensures Value(s) < Pow256(|s|)
  {
    if s != [] {
      ValueBound(s[1..]);
    }
  }

  lemma {:induction false} ValueOfBytes(v: nat, n: nat)
    requires v < Pow256(n)
    ensures Value(Bytes(v, n)) == v
  {
    if n > 0 {
      ValueOfBytes(v / 256, n - 1);
      assert Bytes(v, n)[1..] == Bytes(v / 256, n - 1);
    }
  }

  lemma {:induction false} ValueOfZeros(n: nat)
    ensures Value(Zeros(n)) == 0
  {
    if n > 0 {
      ValueOfZeros(n - 1);
      assert Zeros(n)[1..] == Zeros(n - 1);
    }
  }

  lemma Pow256Of4()
    ensures Pow256(4) == 0x1_0000_0000
  {
    assert Pow256(1) == 256;
    assert Pow256(2) == 65536;
    assert Pow256(3) == 16777216;
  }

  function GetWord(b: Block, k: nat): (w: Word)
    requires k < WORDS
  {
    ValueBound(b[4 * k..4 * k + 4]);
    Pow256Of4();
    Value(b[4 * k..4 * k + 4])
  }

  function SetWord(b: Block, k: nat, w: Word): (r: Block)
    requires k < WORDS
  {
    b[..4 * k] + Bytes(w, 4) + b[4 * k + 4..]
  }

  /** Writing a word changes that word and no other. */
  lemma GetSetWord(b: Block, k: nat, w: Word, j: nat)
    requires k < WORDS && j < WORDS
    ensures GetWord(SetWord(b, k, w), j) == if j == k then w else GetWord(b, j)
  {
    var r := SetWord(b, k, w);
    if j == k {
      assert r[4 * k..4 * k + 4] == Bytes(w, 4);
      Pow256Of4();
      ValueOfBytes(w, 4);
    } else {
      assert r[4 * j..4 * j + 4] == b[4 * j..4 * j + 4];
    }
  }

  lemma ZeroWords(k: nat)
    requires k < WORDS
    ensures GetWord(ZERO_BLOCK, k) == 0
  {
    assert ZERO_BLOCK[4 * k..4 * k + 4] == Zeros(4);
    ValueOfZeros(4);
  }

  // ----- bits -----

  /** (x & (1 << i)) != 0. */
  predicate TestBit(x: nat, i: nat) {
    if i == 0 then x % 2 == 1 else TestBit(x / 2, i - 1)
  }

  /** x | (1 << i) when v holds, x & ~(1 << i) when it does not. */
  function PutBit(x: nat, i: nat, v: bool): nat {
    if i == 0 then x - x % 2 + (if v then 1 else 0) else x % 2 + 2 * PutBit(x / 2, i - 1, v)
  }

  function Pow2(n: nat): nat {
    if n == 0 then 1 else 2 * Pow2(n - 1)
  }

  /** The masking of one bit fits the width it started with. */
  lemma {:induction false} PutBitBound(x: nat, i: nat, v: bool, n: nat)
    requires i < n && x < Pow2(n)
    ensures PutBit(x, i, v) < Pow2(n)
  {
    assert x / 2 < Pow2(n - 1);
    if i > 0 {
      PutBitBound(x / 2, i - 1, v, n - 1);
      assert PutBit(x, i, v) == x % 2 + 2 * PutBit(x / 2, i - 1, v);
    } else {
      assert PutBit(x, i, v) <= 2 * (x / 2) + 1;
    }
  }

  lemma {:induction false} TestPutBit(x: nat, i: nat, v: bool, j: nat)
    ensures TestBit(PutBit(x, i, v), j) <==> if j == i then v else TestBit(x, j)
  {
    if i > 0 && j > 0 {
      TestPutBit(x / 2, i - 1, v, j - 1);
    }
  }

  lemma {:induction false} TestZero(i: nat)
    ensures !TestBit(0, i)
  {
    if i > 0 {
      TestZero(i - 1);
    }
  }

  lemma Pow2Of8()
    ensures Pow2(8) == 256
  {
    assert Pow2(4) == 16;
  }

  predicate GetBit(b: Block, k: nat)
    requires k < BITS
  {
    TestBit(b[k / 8], k % 8)
  }

  /** data[k/8] |= 1 << (k % 8), or data[k/8] &= ~(1 << (k % 8)). */
  function SetBit(b: Block, k: nat, v: bool): (r: Block)
    requires k < BITS
  {
    Pow2Of8();
    PutBitBound(b[k / 8], k % 8, v, 8);
    b[k / 8 := PutBit(b[k / 8], k % 8, v)]
  }

  /** Marking or freeing a block in the bitmap changes its bit and no other. */
  lemma GetSetBit(b: Block, k: nat, v: bool, j: nat)
    requires k < BITS && j < BITS
    ensures GetBit(SetBit(b, k, v), j) <==> if j == k then v else GetBit(b, j)
  {
    TestPutBit(b[k / 8], k % 8, v, j % 8);
  }
}
