/** The file system invariant said without the owner map: below the log the set bits of the bitmap are
    the metadata blocks and the blocks reachable from inodes, and each of those is reachable once. */
module BlockConservation {
  import opened Blocks
  import opened FileState
  import opened FileNeeds

  ghost predicate Reachable(f: FileSys, b: nat)
    requires Shape(f)
  {
    exists i, s :: 0 <= i < f.sb.ninodes && 0 <= s < SLOTS && Slot(f, i, s) == b
  }

  ghost predicate Conserved(f: FileSys)
    requires Shape(f)
  {
    && (forall b :: 0 < b < LogStart(f.sb) ==> (Bit(f, b) <==> Meta(f.sb, b) || Reachable(f, b)))
    && Bit(f, 0)
    && (forall i, s, j, t :: SlotOf(f, i, s) && SlotOf(f, j, t) && Slot(f, i, s) == Slot(f, j, t) ==> i == j && s == t)
    && (forall i, s :: SlotOf(f, i, s) ==> !Meta(f.sb, Slot(f, i, s)))
  }

  /** Slot s of inode i points to a block. */
  ghost predicate SlotOf(f: FileSys, i: int, s: int)
    requires Shape(f)
  {
    0 <= i < f.sb.ninodes && 0 <= s < SLOTS && Slot(f, i, s) != 0
  }

  /** Exactly the conserved states have an owner map. */
  lemma OwnersAreReachable(f: FileSys, owner: Owner)
    requires Shape(f) && Owned(f, owner) && Marked(f, owner)
    ensures Conserved(f)
  {
    hide Slot, Bit;
    forall b | 0 < b < f.sb.size
      ensures b in owner <==> Reachable(f, b)
    {
      if b in owner {
        assert Slot(f, owner[b].0, owner[b].1) == b;
      }
    }
  }

  lemma ReachableHaveOwners(f: FileSys) returns (owner: Owner)
    requires Shape(f) && Conserved(f)
    ensures Owned(f, owner) && Marked(f, owner)
  {
    hide Slot, Bit;
    owner := map b: nat | 0 < b < f.sb.size && Reachable(f, b) :: OwnerOf(f, b);
    forall i, s | 0 <= i < f.sb.ninodes && 0 <= s < SLOTS && Slot(f, i, s) != 0
      ensures Slot(f, i, s) in owner && owner[Slot(f, i, s)] == (i, s)
    {
      var b := Slot(f, i, s);
      assert Reachable(f, b);
      var o := OwnerOf(f, b);
      assert Slot(f, o.0, o.1) == Slot(f, i, s);
    }
  }

  ghost function OwnerOf(f: FileSys, b: nat): (o: (nat, nat))
    requires Shape(f) && Reachable(f, b)
    ensures o.0 < f.sb.ninodes && o.1 < SLOTS && Slot(f, o.0, o.1) == b
  {
    var i, s :| 0 <= i < f.sb.ninodes && 0 <= s < SLOTS && Slot(f, i, s) == b;
    (i, s)
  }

  /** The bitmap that mkfs makes: the bits below the first block it has not used, and no others, so
      those of the log are clear. Such an image is conserved. */
  lemma MkfsImage(f: FileSys, used: nat)
    requires Shape(f) && 0 < f.sb.nlog
    requires f.sb.ninodes / 8 + 3 + (f.sb.size / 4096 + 1) <= used <= f.sb.size - f.sb.nlog
    requires forall b :: 0 <= b < f.sb.size ==> (Bit(f, b) <==> b < used)
    requires forall b :: 0 < b < f.sb.size ==>
               (Reachable(f, b) <==> f.sb.ninodes / 8 + 3 + (f.sb.size / 4096 + 1) <= b < used)
    requires forall i, s, j, t :: SlotOf(f, i, s) && SlotOf(f, j, t) && Slot(f, i, s) == Slot(f, j, t) ==>
               i == j && s == t
    requires forall i, s :: SlotOf(f, i, s) ==> Slot(f, i, s) < f.sb.size
    ensures Conserved(f) && LogClear(f) && Left(f) == f.sb.size - f.sb.nlog - used
  {
    hide Slot, Bit;
    forall i, s | SlotOf(f, i, s) ensures !Meta(f.sb, Slot(f, i, s)) {
      assert Reachable(f, Slot(f, i, s));
    }
    assert !Bit(f, LogStart(f.sb));
    ClearFrom(f, used, LogStart(f.sb));
  }

  lemma {:induction false} ClearFrom(f: FileSys, used: nat, n: nat)
    requires Shape(f) && used <= n <= f.sb.size
    requires forall b :: 0 <= b < n ==> (Bit(f, b) <==> b < used)
    ensures ClearBelow(f, n) == n - used
  {
    hide Bit;
    if used < n {
      ClearFrom(f, used, n - 1);
    }
  }
}
