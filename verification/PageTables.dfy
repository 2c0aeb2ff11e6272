/** Physical memory as frames of words: the free list of kalloc.c threaded through it, two-level
    page tables of vm.c in it, and the one use every frame is put to. */
module PageTables {
  import opened Basics

  const ENTRIES: nat := 1024          // words in a page, NPDENTRIES, NPTENTRIES
  const PGSIZE: nat := 4096
  const KERNBASE: nat := 0x8000_0000
  const USERPAGES: nat := 524288      // KERNBASE / PGSIZE
  const ALLPAGES: nat := 1048576      // 4 GB / PGSIZE
  const NFRAMES: nat := 57344         // PHYSTOP / PGSIZE

  const DEVSPACE: nat := 0xFE00_0000

  type Page = s: seq<Word> | |s| == ENTRIES witness seq(1024, _ => 0)

  function ZeroPage(): (z: Page)
    ensures forall k :: 0 <= k < ENTRIES ==> z[k] == 0
  {
    seq(ENTRIES, _ => 0)
  }

  /** Which part of which address space a frame is, if any: a page directory, its table for
      directory entry i, its user page p; Loose otherwise (kernel stacks, pipes, frames not
      mapped yet, frames dropped on a failure). */
  datatype Role = Dir | Table(d: nat, i: nat) | User(d: nat, p: nat) | Loose

  datatype Vm = Vm(
    frames: seq<Page>,      // physical memory
    list: Word,             // kmem.freelist, a kernel address or 0
    free: seq<nat>,         // the frames on that list
    role: map<nat, Role>,   // the frames handed out by kalloc and not yet given back
    first: nat)             // the first frame after the kernel

  // ----- addresses and entries -----

  /** p2v of a frame. */
  function Ptr(f: nat): (p: nat)
  {
    f * PGSIZE + KERNBASE
  }

  /** The frames at PGROUNDUP(v) and PGROUNDDOWN(v), for kernel addresses. */
  function PageUp(v: nat): int {
    (v + PGSIZE - 1) / PGSIZE - USERPAGES
  }

  function PageDown(v: nat): int {
    v / PGSIZE - USERPAGES
  }

  /** PGROUNDUP in pages. */
  function Up(size: nat): nat {
    (size + PGSIZE - 1) / PGSIZE
  }

  /** How many pages the bytes from va on touch. */
  function Pages(va: nat, size: nat): (n: nat)
    requires 0 < size
  {
    (va + size - 1) / PGSIZE - va / PGSIZE + 1
  }

  predicate Present(e: Word) {
    e % 2 == 1
  }

  lemma EntryIs(f: nat, perm: nat)
    requires f < ALLPAGES && perm < PGSIZE - 1 && perm % 2 == 0
    ensures f * PGSIZE + perm + 1 < 0x1_0000_0000
    ensures Present(f * PGSIZE + perm + 1) && FrameOf(f * PGSIZE + perm + 1) == f
  {
    hide Present, FrameOf;
    EntryPresent(f, perm / 2);
    EntryFrame(f, perm + 1);
  }

  lemma EntryPresent(f: nat, h: nat)
    requires f * PGSIZE + 2 * h + 1 < 0x1_0000_0000
    ensures Present(f * PGSIZE + 2 * h + 1)
  {
    assert f * PGSIZE + 2 * h + 1 == 2 * (f * 2048 + h) + 1;
  }

  lemma EntryFrame(f: nat, low: nat)
    requires f * PGSIZE + low < 0x1_0000_0000 && low < PGSIZE
    ensures FrameOf(f * PGSIZE + low) == f
  {
  }

  /** The frame an entry points to: PTE_ADDR(e) / PGSIZE. */
  function FrameOf(e: Word): nat {
    e / PGSIZE
  }

  /** pa | perm | PTE_P for the address of frame f. */
  function Entry(f: nat, perm: nat): (e: Word)
    requires f < ALLPAGES && perm < PGSIZE - 1 && perm % 2 == 0
    ensures Present(e) && FrameOf(e) == f
  {
    EntryIs(f, perm);
    f * PGSIZE + perm + 1
  }

  /** The bits below the frame are those of perm, and PTE_P. */
  lemma EntryBits(f: nat, perm: nat)
    requires f < ALLPAGES && perm < PGSIZE - 1 && perm % 2 == 0
    ensures Entry(f, perm) % 8 == perm % 8 + 1
  {
    EntryIs(f, perm);
    assert f * PGSIZE + perm + 1 == 8 * (f * 512 + perm / 8) + (perm % 8 + 1);
  }

  /** PTE_W | PTE_U */
  const PERM_WU: nat := 6
  const PERM_W: nat := 2

  ghost predicate Shape(m: Vm) {
    |m.frames| == NFRAMES && 0 < m.first <= NFRAMES
  }

  /** Entry i of directory d. */
  function Pde(m: Vm, d: nat, i: nat): Word
    requires Shape(m) && d < NFRAMES && i < ENTRIES
  {
    m.frames[d][i]
  }

  /** Directory d has a table for the 4 MB that hold page p. */
  predicate HasTable(m: Vm, d: nat, p: nat)
    requires Shape(m) && d < NFRAMES && p < ALLPAGES
  {
    Present(Pde(m, d, p / ENTRIES)) && FrameOf(Pde(m, d, p / ENTRIES)) < NFRAMES
  }

  /** The entry for virtual page p, 0 if there is no table for it. */
  function Pte(m: Vm, d: nat, p: nat): Word
    requires Shape(m) && d < NFRAMES && p < ALLPAGES
  {
    if HasTable(m, d, p) then m.frames[FrameOf(Pde(m, d, p / ENTRIES))][p % ENTRIES] else 0
  }

  predicate Mapped(m: Vm, d: nat, p: nat)
    requires Shape(m) && d < NFRAMES && p < ALLPAGES
  {
    Present(Pte(m, d, p))
  }

  // ----- the invariant -----

  /** The free list runs through the first word of the free frames. */
  ghost predicate Chained(m: Vm)
    requires Shape(m)
  {
    && (forall k :: 0 <= k < |m.free| ==> m.first <= m.free[k] < NFRAMES)
    && m.list == (if m.free == [] then 0 else Ptr(m.free[0]))
    && (forall k :: 0 <= k < |m.free| ==> m.frames[m.free[k]][0] == Link(m.free, k))
  }

  /** What the k-th free frame links to. */
  function Link(free: seq<nat>, k: nat): nat {
    if k + 1 < |free| then Ptr(free[k + 1]) else 0
  }

  /** A frame is free at most once and then in no other use. */
  ghost predicate Disjoint(m: Vm) {
    && Distinct(m.free)
    && (forall f :: f in m.role ==> f !in m.free && m.first <= f < NFRAMES)
  }

  /** d is the page directory of an address space. */
  ghost predicate Space(m: Vm, d: nat) {
    d in m.role && m.role[d] == Dir
  }

  /** Directory entries point to the tables recorded for them, and tables to nothing else. */
  ghost predicate Tabled(m: Vm)
    requires Shape(m) && Disjoint(m)
  {
    && (forall d: nat, i: nat :: Space(m, d) && i < ENTRIES && Present(Pde(m, d, i)) ==>
          FrameOf(Pde(m, d, i)) in m.role && m.role[FrameOf(Pde(m, d, i))] == Table(d, i))
    && (forall f, d: nat, i: nat :: f in m.role && m.role[f] == Table(d, i) ==>
          Space(m, d) && i < ENTRIES && Present(Pde(m, d, i)) && FrameOf(Pde(m, d, i)) == f)
  }

  /** User entries point to the frames recorded for them, and each such frame has just one entry. */
  ghost predicate Paged(m: Vm)
    requires Shape(m) && Disjoint(m)
  {
    && (forall d: nat, p: nat :: Space(m, d) && p < USERPAGES && Mapped(m, d, p) ==>
          FrameOf(Pte(m, d, p)) in m.role && m.role[FrameOf(Pte(m, d, p))] == User(d, p))
    && (forall f, d: nat, p: nat :: f in m.role && m.role[f] == User(d, p) ==>
          Space(m, d) && p < USERPAGES && Mapped(m, d, p) && FrameOf(Pte(m, d, p)) == f)
  }

  /** PTE_P, PTE_W and PTE_U in every entry for user pages, on both levels; no PTE_U in an entry for the
      kernel's. */
  ghost predicate Guarded(m: Vm)
    requires Shape(m)
  {
    && (forall d: nat, i: nat :: Space(m, d) && d < NFRAMES && i < ENTRIES && Present(Pde(m, d, i)) ==>
          Pde(m, d, i) % 8 == 7)
    && (forall d: nat, p: nat :: Space(m, d) && d < NFRAMES && p < ALLPAGES ==> EntryOk(Pte(m, d, p), p))
  }

  predicate EntryOk(e: Word, p: nat) {
    if p < USERPAGES then Present(e) ==> e % 8 == 7 else e % 8 < 4
  }

  ghost predicate Inv(m: Vm) {
    Shape(m) && Chained(m) && Disjoint(m) && Tabled(m) && Paged(m) && Guarded(m)
  }
}
