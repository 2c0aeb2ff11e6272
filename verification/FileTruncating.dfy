/** itrunc as a sequence of bfrees. */
module FileTruncating {
  import opened Blocks
  import opened FileState
  import opened FileSteps
  import opened FileNeeds
  import opened FileWriting
  import opened Basics

  /** The state of itrunc: slots below n are gone, no other file is touched. */
  ghost predicate Freeing(f0: FileSys, fo: Owner, f: FileSys, owner: Owner) {
    && Inv(f0, fo) && Inv(f, owner) && SizesKept(f0, f) && LogBitsKept(f0, f)
    && f.ip == f0.ip.(addrs := f.ip.addrs)
    && (forall i :: 0 <= i < f0.sb.ninodes && i != f0.ip.inum ==> DataKept(f0, f, i))
    && (forall b :: b in owner ==> b in fo && owner[b] == fo[b])
    && (forall b :: b in fo && fo[b].0 != f0.ip.inum ==> b in owner)
  }

  lemma FreeingStart(f: FileSys, owner: Owner)
    requires Inv(f, owner)
    ensures Freeing(f, owner, f, owner)
  {
    forall i | 0 <= i < f.sb.ninodes
      ensures DataKept(f, f, i)
    {
      SelfKept(f, owner, i);
    }
  }

  lemma FreeingStep(f0: FileSys, fo: Owner, f: FileSys, owner: Owner, g: FileSys, go: Owner, s0: nat)
    requires Freeing(f0, fo, f, owner) && s0 < SLOTS && Inv(g, go)
    requires SlotsKept(f, g, f.ip.inum, s0) && SizesKept(f, g) && BlocksKept(f, g, owner) && LogBitsKept(f, g)
    requires g.ip == f.ip.(addrs := g.ip.addrs)
    requires go == owner || (Slot(f, f.ip.inum, s0) != 0 && go == owner - {Slot(f, f.ip.inum, s0) as nat})
    ensures Freeing(f0, fo, g, go)
  {
    hide Marked, Filled, Slot, Size, SlotsKept, BlocksKept;
    if Slot(f, f.ip.inum, s0) != 0 {
      SlotInUse(f, owner, s0);
    }
    forall i | 0 <= i < f0.sb.ninodes && i != f0.ip.inum
      ensures DataKept(f0, g, i)
    {
      AttachKeepsData(f, g, owner, s0, i);
      DataKeptTrans(f0, f, g, i);
    }
  }

  lemma FreeDirectStep(f0: FileSys, fo: Owner, f: FileSys, owner: Owner, s0: nat)
    requires Freeing(f0, fo, f, owner) && s0 <= NDIRECT && f.ip.addrs[s0] != 0
    requires s0 == NDIRECT ==> f.dead == NINDIRECT
    ensures f.ip.addrs[s0] < f.sb.size && Bit(f, f.ip.addrs[s0])
    ensures Freeing(f0, fo, FreeDirect(f, s0), owner - {f.ip.addrs[s0] as nat})
  {
    hide Owned, Marked, Filled, SlotsKept, SizesKept, BlocksKept, DataKept;
    FreeDirectKeeps(f, owner, s0);
    assert Slot(f, f.ip.inum, s0) == f.ip.addrs[s0];
    FreeingStep(f0, fo, f, owner, FreeDirect(f, s0), owner - {f.ip.addrs[s0] as nat}, s0);
  }

  lemma FreeEntryStep(f0: FileSys, fo: Owner, f: FileSys, owner: Owner)
    requires Freeing(f0, fo, f, owner) && f.dead < NINDIRECT && f.ip.addrs[NDIRECT] != 0
    ensures var b := Slot(f, f.ip.inum, 13 + f.dead);
            && b < f.sb.size && (b != 0 ==> Bit(f, b))
            && Freeing(f0, fo, FreeEntry(f), if b == 0 then owner else owner - {b as nat})
  {
    hide Owned, Marked, Filled, SlotsKept, SizesKept, BlocksKept, DataKept, Slot;
    FreeEntryKeeps(f, owner);
    var b := Slot(f, f.ip.inum, 13 + f.dead);
    FreeingStep(f0, fo, f, owner, FreeEntry(f), if b == 0 then owner else owner - {b as nat}, 13 + f.dead);
  }

  /** The state itrunc returns in. */
  function Emptied(f: FileSys): (g: FileSys)
    requires Shape(f)
  {
    Updated(Resized(f, 0))
  }

  /** After itrunc the file is empty and owns nothing, every other file is what it was, and the
      set bits are the metadata and the blocks of the other files. */
  lemma EmptiedKeeps(f0: FileSys, fo: Owner, f: FileSys, owner: Owner)
    requires Freeing(f0, fo, f, owner) && f.dead == 0 && (forall s :: 0 <= s <= NDIRECT ==> f.ip.addrs[s] == 0)
    ensures var g := Emptied(f);
            && Good(g, owner) && SameFrame(f0, g)
            && Contents(g, f0.ip.inum) == []
            && (forall i :: 0 <= i < f0.sb.ninodes && i != f0.ip.inum ==>
                  Size(f0, i) <= MAXFILE * BSIZE && Size(g, i) == Size(f0, i) && Contents(g, i) == Contents(f0, i))
    ensures forall b :: b in owner <==> b in fo && fo[b].0 != f0.ip.inum
    ensures LogBitsKept(f0, Emptied(f)) && Left(Emptied(f)) == Left(f0) + |OwnBlocks(f0)|
  {
    hide Marked, Slot, Synced, Left, OwnBlocks, Bit;
    var g := Emptied(f);
    EmptiedGood(f, owner);
    forall i | 0 <= i < f0.sb.ninodes && i != f0.ip.inum
      ensures Size(f0, i) <= MAXFILE * BSIZE && Size(g, i) == Size(f0, i) && Contents(g, i) == Contents(f0, i)
    {
      DataKeptTrans(f0, f, g, i);
      ContentsKept(f0, g, i);
    }
    forall b | b in owner
      ensures fo[b].0 != f0.ip.inum
    {
      NoSlots(f, owner[b].1);
    }
    Regained(f0, fo, g, owner);
  }

  // ----- the blocks that become free -----

  /** The blocks of the locked inode, with the indirect block. */
  ghost function OwnBlocks(f: FileSys): set<nat>
    requires Shape(f)
  {
    set s | 0 <= s < SLOTS && Slot(f, f.ip.inum, s) != 0 :: Slot(f, f.ip.inum, s) as nat
  }

  ghost function OwnBelow(owner: Owner, i: nat, n: nat): set<nat> {
    set b | b in owner && owner[b].0 == i && b < n
  }

  lemma {:induction false} ClearMore(f: FileSys, fo: Owner, g: FileSys, i: nat, n: nat)
    requires SameFrame(f, g) && n <= f.sb.size
    requires forall b :: 0 <= b < n ==>
               && (b in fo ==> Bit(f, b))
               && (Bit(g, b) <==> Bit(f, b) && !(b in fo && fo[b].0 == i))
    ensures ClearBelow(g, n) == ClearBelow(f, n) + |OwnBelow(fo, i, n)|
  {
    hide Bit;
    if n > 0 {
      ClearMore(f, fo, g, i, n - 1);
      var b := n - 1;
      if b in fo && fo[b].0 == i {
        assert OwnBelow(fo, i, n) == OwnBelow(fo, i, b) + {b};
      } else {
        assert OwnBelow(fo, i, n) == OwnBelow(fo, i, b);
      }
    } else {
      assert OwnBelow(fo, i, n) == {};
    }
  }

  lemma Regained(f: FileSys, fo: Owner, g: FileSys, go: Owner)
    requires Inv(f, fo) && Inv(g, go) && SameFrame(f, g)
    requires forall b :: b in go <==> b in fo && fo[b].0 != f.ip.inum
    ensures Left(g) == Left(f) + |OwnBlocks(f)|
  {
    hide Filled, Slot, Bit;
    forall b | 0 <= b < LogStart(f.sb)
      ensures b in fo ==> Bit(f, b)
      ensures Bit(g, b) <==> Bit(f, b) && !(b in fo && fo[b].0 == f.ip.inum)
    {
      assert Bit(f, b) <==> Meta(f.sb, b) || b in fo;
      assert Bit(g, b) <==> Meta(f.sb, b) || b in go;
    }
    ClearMore(f, fo, g, f.ip.inum, LogStart(f.sb));
    assert OwnBelow(fo, f.ip.inum, LogStart(f.sb)) == OwnBlocks(f) by {
      forall b | b in OwnBelow(fo, f.ip.inum, LogStart(f.sb)) ensures b in OwnBlocks(f) {
        assert Slot(f, f.ip.inum, fo[b].1) == b;
      }
    }
  }

  lemma NoSlots(f: FileSys, s: nat)
    requires Shape(f) && (forall s :: 0 <= s <= NDIRECT ==> f.ip.addrs[s] == 0) && s < SLOTS
    ensures Slot(f, f.ip.inum, s) == 0
  {
  }

  lemma EmptiedGood(f: FileSys, owner: Owner)
    requires Inv(f, owner) && f.dead == 0
    ensures var g := Emptied(f);
            && Good(g, owner) && SizesKept(f, g) && g.ip.size == 0 && LogBitsKept(f, g)
            && forall i :: 0 <= i < f.sb.ninodes && i != f.ip.inum ==> DataKept(f, g, i)
  {
    hide Owned, Marked, Slot, Synced, Bit;
    ResizedInv(f, owner, 0);
    UpdatedKeeps(Resized(f, 0), owner);
    FinishedSame(f, owner, Resized(f, 0), Emptied(f));
  }
}
