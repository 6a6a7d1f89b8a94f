/** kernel/arch/x86_64/kernel/paging/paging.cpp: mapping and unmapping pages by editing the
    page tables in place through the recursive mapping.

    Every load and store below goes through the hardware walk at the address the source
    uses, so that the preconditions of `Load`, `Store` and `ZeroPage` prove that none of them
    faults. Fresh frames hold arbitrary words until they are cleared. */
module Paging {
  import opened Options
  import opened Bits
  import opened Blocks
  import opened BlockMaps
  import opened Frames
  import opened PageTables
  import opened PageTree
  import opened PageTableInit
  import opened PhysicalMemory

  // ---------------------------------------------------------------------
  // What the state means
  // ---------------------------------------------------------------------

  /** The hardware's translation of a page outside slot 511. */
  ghost function TranslationOf(mem: Memory, root: nat, page: nat): Translation {
    if page < PAGES && PathOf(page)[0] != 511 then Walk(mem, root, PathOf(page)) else Fault
  }

  /** The hardware walk of every page equals the abstract map. */
  ghost predicate Abstracts(mem: Memory, root: nat, pages: map<nat, nat>) {
    forall n: nat :: TranslationOf(mem, root, n) == if n in pages then Leaf(pages[n]) else Fault
  }

  /** The abstract map once page `n` has entry `e`. */
  function Remapped(pages: map<nat, nat>, n: nat, e: nat): map<nat, nat> {
    if Present(e) then pages[n := e] else pages - {n}
  }

  /** Every managed frame is free, in a caller's hand, in the tree or lost, and only one of
      these; all of them are memory, and frame 0 is none of them. */
  ghost predicate Books(pool: set<nat>, free: set<nat>, held: set<nat>, tree: Tree, lost: set<nat>, mem: Memory) {
    && pool == free + held + tree.Values + lost
    && free !! held && free !! tree.Values && free !! lost
    && held !! tree.Values && held !! lost && tree.Values !! lost
    && pool <= mem.Keys
    && 0 !in pool
  }

  ghost predicate IsTable(tree: Tree, f: nat) {
    exists q :: q in tree && |q| <= 3 && tree[q] == f
  }

  /** Page tables were added in free frames; everything that was in the tree is where it was,
      and no other frame changed. */
  ghost predicate Grown(mem: Memory, tree: Tree, free: set<nat>, mem': Memory, tree': Tree, free': set<nat>) {
    && free' <= free
    && mem'.Keys == mem.Keys
    && (forall q :: q in tree ==> q in tree' && tree'[q] == tree[q])
    && (forall q :: q in tree' && q !in tree ==> |q| <= 3 && tree'[q] in free)
    && (forall f :: f in mem && f !in free && !IsTable(tree, f) ==> mem'[f] == mem[f])
  }

  lemma GrownReflexive(mem: Memory, tree: Tree, free: set<nat>)
    ensures Grown(mem, tree, free, mem, tree, free)
  {}

  lemma GrownTransitive(mem: Memory, tree: Tree, free: set<nat>, mem': Memory, tree': Tree, free': set<nat>,
                        mem'': Memory, tree'': Tree, free'': set<nat>)
    requires Grown(mem, tree, free, mem', tree', free') && Grown(mem', tree', free', mem'', tree'', free'')
    ensures Grown(mem, tree, free, mem'', tree'', free'')
  {
    forall f | f in mem && f !in free && !IsTable(tree, f) ensures mem''[f] == mem[f] {
      assert !IsTable(tree', f) by {
        assert forall q :: q in tree' && q !in tree ==> tree'[q] != f;
      }
    }
  }

  // ---------------------------------------------------------------------
  // Installing a table, through the recursive mapping
  // ---------------------------------------------------------------------

  /** Written through the macro addresses, the entry lands in the table at `q` and the clearing
      in the new table, although that appears only once its entry is there. */
  lemma InstallThroughMacros(mem: Memory, root: nat, tree: Tree, q: Path, i: Index, f: nat)
    requires CanInstall(mem, root, tree, q, i, f)
    ensures var entryAddress, tableAddress := EntryAt(TableAddress(q), i), EntryAt(TableAddress(Child(q, i)), 0);
            && Accessible(mem, root, entryAddress)
            && var mem1 := Store(mem, root, entryAddress, TableEntry(f));
               && Accessible(mem1, root, tableAddress)
               && ZeroPage(mem1, root, tableAddress) == Hung(mem, tree, q, i, f)[f := ZeroTable()]
  {
    MacroReaches(mem, root, tree, q, i);
    InstallLinks(mem, root, tree, q, i, f);
    MacroReaches(Hung(mem, tree, q, i, f), root, tree[Child(q, i) := f], Child(q, i), 0);
  }

  lemma InstallAbstracts(mem: Memory, root: nat, tree: Tree, q: Path, i: Index, f: nat, pages: map<nat, nat>)
    requires CanInstall(mem, root, tree, q, i, f) && Abstracts(mem, root, pages)
    ensures Abstracts(Hung(mem, tree, q, i, f)[f := ZeroTable()], root, pages)
  {
    var mem' := Hung(mem, tree, q, i, f)[f := ZeroTable()];
    forall n: nat ensures TranslationOf(mem', root, n) == TranslationOf(mem, root, n) {
      if n < PAGES && PathOf(n)[0] != 511 {
        InstallKeepsWalks(mem, root, tree, q, i, f, PathOf(n));
      }
    }
  }

  lemma InstallGrows(mem: Memory, root: nat, tree: Tree, q: Path, i: Index, f: nat, free: set<nat>)
    requires CanInstall(mem, root, tree, q, i, f) && f in free
    ensures Grown(mem, tree, free, Hung(mem, tree, q, i, f)[f := ZeroTable()], tree[Child(q, i) := f], free - {f})
  {
    assert IsTable(tree, tree[q]);
  }

  /** A free frame may become a table: nothing else is in it. */
  lemma FreeCanInstall(mem: Memory, root: nat, tree: Tree, q: Path, i: Index, f: nat,
                       pool: set<nat>, free: set<nat>, held: set<nat>, lost: set<nat>)
    requires TreeOk(mem, root, tree) && q in tree && |q| <= 2 && Child(q, i) !in tree && (q == [] ==> i != 511)
    requires Books(pool, free, held, tree, lost, mem) && f in free
    ensures CanInstall(mem, root, tree, q, i, f)
    ensures Books(pool, free - {f}, held, tree[Child(q, i) := f], lost, Hung(mem, tree, q, i, f)[f := ZeroTable()])
  {
    ValuesWith(tree, Child(q, i), f);
  }

  /** The word read through the recursive mapping says whether the table below exists. */
  lemma EntryTells(mem: Memory, root: nat, tree: Tree, q: Path, i: Index)
    requires TreeOk(mem, root, tree) && q in tree && |q| <= 2 && (q == [] ==> i != 511)
    ensures var address := EntryAt(TableAddress(q), i);
            Accessible(mem, root, address) && (Present(Load(mem, root, address)) <==> Child(q, i) in tree)
  {
    MacroReaches(mem, root, tree, q, i);
    if Child(q, i) in tree {
      assert LinkAt(mem, tree, Child(q, i));
    }
  }

  lemma Macros(i4: Index, i3: Index, i2: Index)
    ensures Child([], i4) == [i4] && Child([i4], i3) == [i4, i3] && Child([i4, i3], i2) == [i4, i3, i2]
    ensures TableAddress([]) == Pml4Table() && TableAddress([i4]) == Pml3Table(i4)
    ensures TableAddress([i4, i3]) == Pml2Table(i4, i3) && TableAddress([i4, i3, i2]) == Pml1Table(i4, i3, i2)
    ensures EntryAt(Pml3Table(i4), 0) == Pml3Table(i4)
    ensures EntryAt(Pml2Table(i4, i3), 0) == Pml2Table(i4, i3)
    ensures EntryAt(Pml1Table(i4, i3, i2), 0) == Pml1Table(i4, i3, i2)
  {}

  lemma Prefixes(mem: Memory, root: nat, tree: Tree, i4: Index, i3: Index, i2: Index)
    requires TreeOk(mem, root, tree)
    ensures [i4, i3, i2] in tree ==> [i4, i3] in tree
    ensures [i4, i3] in tree ==> [i4] in tree
    ensures [] in tree
  {
    if [i4, i3, i2] in tree {
      PrefixIn(mem, root, tree, [i4, i3, i2], 2);
      assert [i4, i3, i2][..2] == [i4, i3];
    }
    if [i4, i3] in tree {
      PrefixIn(mem, root, tree, [i4, i3], 1);
      assert [i4, i3][..1] == [i4];
    }
  }

  /** Missing tables on the way to a page, by indices. */
  lemma MissingIs(tree: Tree, i4: Index, i3: Index, i2: Index, i1: Index)
    ensures Missing(tree, [i4, i3, i2, i1])
            == (if [i4] in tree then 0 else 1) + (if [i4, i3] in tree then 0 else 1)
               + (if [i4, i3, i2] in tree then 0 else 1)
  {
    var q: Path := [i4, i3, i2, i1];
    assert q[..1] == [i4] && q[..2] == [i4, i3] && q[..3] == [i4, i3, i2];
  }

  /** Once a page's PML1 exists no table on the way is missing, whatever its entry becomes. */
  lemma NoneMissing(mem: Memory, root: nat, tree: Tree, c: Path, e: nat)
    requires TreeOk(mem, root, tree) && |c| == 4 && Parent(c) in tree
    ensures Missing(Rehung(tree, Parent(c), Last(c), e), c) == 0
  {
    PrefixIn(mem, root, tree, Parent(c), 1);
    PrefixIn(mem, root, tree, Parent(c), 2);
    assert Parent(c)[..1] == c[..1] && Parent(c)[..2] == c[..2] && Parent(c) == c[..3];
    assert |c[..1]| == 1 && |c[..2]| == 2 && |c[..3]| == 3;
    ChildOfParent(c);
  }

  // ---------------------------------------------------------------------
  // Writing a PML1 entry, through the recursive mapping
  // ---------------------------------------------------------------------

  /** Everything in the tree but `c` is where it was, and only page tables and frames that were
      free may have changed: data behind mapped pages is untouched. */
  ghost predicate KeptBut(c: Path, mem: Memory, tree: Tree, free: set<nat>, mem': Memory, tree': Tree) {
    && mem'.Keys == mem.Keys
    && (forall q :: q in tree && q != c ==> q in tree' && tree'[q] == tree[q])
    && (forall q :: q in tree' && q !in tree && q != c ==> |q| <= 3)
    && (forall f :: f in mem && f !in free && !IsTable(tree, f) ==> mem'[f] == mem[f])
  }

  lemma NothingWritten(c: Path, mem: Memory, tree: Tree, free: set<nat>)
    ensures KeptBut(c, mem, tree, free, mem, tree)
  {}

  /** Growing and then writing one PML1 entry. */
  lemma GrownThenWritten(q: Path, i: Index, e: nat, mem: Memory, tree: Tree, free: set<nat>,
                         mem': Memory, tree': Tree, free': set<nat>)
    requires Grown(mem, tree, free, mem', tree', free')
    requires q in tree' && |q| == 3 && tree'[q] in mem'
    ensures KeptBut(Child(q, i), mem, tree, free, WriteWord(mem', tree'[q], i, e), Rehung(tree', q, i, e))
  {
    assert q in tree ==> IsTable(tree, tree'[q]);
  }

  lemma LeafStore(mem: Memory, root: nat, tree: Tree, q: Path, i: Index, e: nat)
    requires TreeOk(mem, root, tree) && q in tree && |q| == 3
    ensures tree[q] in mem
    ensures var address := EntryAt(TableAddress(q), i);
            && Accessible(mem, root, address)
            && Load(mem, root, address) == mem[tree[q]][i]
            && Store(mem, root, address, e) == WriteWord(mem, tree[q], i, e)
  {
    MacroReaches(mem, root, tree, q, i);
  }

  lemma LeafAbstracts(mem: Memory, root: nat, tree: Tree, q: Path, i: Index, e: nat, n: nat, pages: map<nat, nat>)
    requires CanWriteLeaf(mem, root, tree, q, e) && Abstracts(mem, root, pages)
    requires n < PAGES && PathOf(n) == Child(q, i) && PathOf(n)[0] != 511
    ensures Abstracts(WriteWord(mem, tree[q], i, e), root, Remapped(pages, n, e))
  {
    var mem' := WriteWord(mem, tree[q], i, e);
    forall m: nat
      ensures TranslationOf(mem', root, m) == if m == n then LeafOf(e) else TranslationOf(mem, root, m)
    {
      if m < PAGES && PathOf(m)[0] != 511 {
        LeafWriteWalks(mem, root, tree, q, i, e, PathOf(m));
        PagePath(m);
        PagePath(n);
      }
    }
  }

  function OwnedFrame(e: nat): set<nat> {
    if Allocated(e) then {e / 4096} else {}
  }

  function FrameOf(tree: Tree, c: Path): set<nat> {
    if c in tree then {tree[c]} else {}
  }

  lemma FrameOfGrown(c: Path, mem: Memory, tree: Tree, free: set<nat>, mem': Memory, tree': Tree, free': set<nat>)
    requires Grown(mem, tree, free, mem', tree', free') && |c| == 4
    ensures FrameOf(tree', c) == FrameOf(tree, c) && free' <= free
  {}

  lemma RehungValues(mem: Memory, root: nat, tree: Tree, q: Path, i: Index, e: nat)
    requires CanWriteLeaf(mem, root, tree, q, e)
    ensures Rehung(tree, q, i, e).Values == tree.Values - FrameOf(tree, Child(q, i)) + OwnedFrame(e)
  {
    var c := Child(q, i);
    if c in tree {
      ValuesWithout(tree, c);
    } else {
      assert tree - {c} == tree;
    }
    if Allocated(e) {
      ValuesWith(tree - {c}, c, e / 4096);
      assert (tree - {c})[c := e / 4096] == tree[c := e / 4096];
    }
  }

  /** A frame in the caller's hand may be mapped; a frame it replaces leaves the tree. */
  lemma LeafBooks(mem: Memory, root: nat, tree: Tree, q: Path, i: Index, e: nat,
                  pool: set<nat>, free: set<nat>, held: set<nat>, lost: set<nat>)
    requires TreeOk(mem, root, tree) && q in tree && |q| == 3
    requires Books(pool, free, held, tree, lost, mem) && OwnedFrame(e) <= held
    ensures CanWriteLeaf(mem, root, tree, q, e)
    ensures Books(pool, free, held - OwnedFrame(e), Rehung(tree, q, i, e), lost + FrameOf(tree, Child(q, i)),
                  WriteWord(mem, tree[q], i, e))
  {
    if Allocated(e) {
      assert e / 4096 in held;
    }
    RehungValues(mem, root, tree, q, i, e);
    if Child(q, i) in tree {
      assert tree[Child(q, i)] in tree.Values;
    }
  }

  /** Without its PML1 a page is neither mapped nor in the tree. */
  lemma AbsentPage(mem: Memory, root: nat, tree: Tree, pages: map<nat, nat>, n: nat)
    requires TreeOk(mem, root, tree) && Abstracts(mem, root, pages)
    requires n < PAGES && PathOf(n)[0] != 511 && Parent(PathOf(n)) !in tree
    ensures n !in pages && PathOf(n) !in tree
  {
    WalkIs(mem, root, tree, PathOf(n));
    assert TranslationOf(mem, root, n) == Fault;
    if PathOf(n) in tree {
      PrefixIn(mem, root, tree, PathOf(n), 3);
    }
  }

  /** A frame taken out of the tree and given back counts as free instead of lost. */
  lemma ReturnedBooks(pool: set<nat>, free: set<nat>, held: set<nat>, tree: Tree, lost: set<nat>, mem: Memory,
                      back: set<nat>)
    requires Books(pool, free, held, tree, lost + back, mem) && back !! lost
    ensures Books(pool, free + back, held, tree, lost, mem)
  {}

  lemma TreeIsNotFree(mem: Memory, tree: Tree, pool: set<nat>, free: set<nat>, held: set<nat>, lost: set<nat>, c: Path)
    requires Books(pool, free, held, tree, lost, mem)
    ensures FrameOf(tree, c) !! free && FrameOf(tree, c) !! lost
  {
    if c in tree {
      assert tree[c] in tree.Values;
    }
  }

  /** The frame `unmapPage` gives back for an entry. */
  function ReturnedFrame(e: nat): nat {
    e / 4096 % 0x10_0000_0000_0000
  }

  /** The PML1 entry of a page says whether a frame is in the tree there, and which. */
  lemma LeafTells(mem: Memory, root: nat, tree: Tree, q: Path, i: Index)
    requires TreeOk(mem, root, tree) && q in tree && |q| == 3
    ensures var e := mem[tree[q]][i];
            FrameOf(tree, Child(q, i)) == if BitAnd(e, ALLOCATED) != 0 then {ReturnedFrame(e)} else {}
  {
    hide BitAnd;
    FlagTests(mem[tree[q]][i]);
    if Child(q, i) in tree {
      assert LinkAt(mem, tree, Child(q, i));
    }
  }

  /** All that clearing a PML1 entry does, with the frame it held counted as lost. */
  lemma LeafCleared(mem: Memory, root: nat, tree: Tree, q: Path, i: Index, n: nat, pages: map<nat, nat>,
                    pool: set<nat>, free: set<nat>, held: set<nat>, lost: set<nat>)
    requires TreeOk(mem, root, tree) && q in tree && |q| == 3
    requires Books(pool, free, held, tree, lost, mem) && Abstracts(mem, root, pages)
    requires n < PAGES && PathOf(n) == Child(q, i) && PathOf(n)[0] != 511
    ensures tree[q] in mem
    ensures var mem', c := WriteWord(mem, tree[q], i, 0), Child(q, i);
            && TreeOk(mem', root, tree - {c})
            && Books(pool, free, held, tree - {c}, lost + FrameOf(tree, c), mem')
            && Abstracts(mem', root, pages - {n})
            && KeptBut(c, mem, tree, free, mem', tree - {c})
            && FrameOf(tree, c) !! free && FrameOf(tree, c) !! lost
  {
    hide Books, Abstracts, KeptBut, Grown, PathOf, WriteWord, CanWriteLeaf;
    var c := Child(q, i);
    assert tree[q] in mem;
    hide TreeOk, Linked;
    LeafBooks(mem, root, tree, q, i, 0, pool, free, held, lost);
    LeafWrite(mem, root, tree, q, i, 0);
    LeafAbstracts(mem, root, tree, q, i, 0, n, pages);
    GrownReflexive(mem, tree, free);
    GrownThenWritten(q, i, 0, mem, tree, free, mem, tree, free);
    TreeIsNotFree(mem, tree, pool, free, held, lost, c);
    assert !Allocated(0) && !Present(0) && held - OwnedFrame(0) == held;
  }

  lemma BootAbstracts(mem: Memory, pml4: nat, pml3: nat, pml2: nat, pml1: nat)
    requires BootFrames(mem, pml4, pml3, pml2, pml1)
    ensures Abstracts(BootMemory(mem, pml4, pml3, pml2, pml1), pml4, BootPages())
  {
    forall n: nat
      ensures TranslationOf(BootMemory(mem, pml4, pml3, pml2, pml1), pml4, n)
              == if n in BootPages() then Leaf(BootPages()[n]) else Fault
    {
      if IsKernelPage(n) {
        KernelPage(n - KERNEL_PAGE);
      }
      if n < PAGES && PathOf(n)[0] != 511 {
        BootWalk(mem, pml4, pml3, pml2, pml1, n);
      }
    }
  }

  lemma BootValues(pml4: nat, pml3: nat, pml2: nat, pml1: nat)
    ensures BootTree(pml4, pml3, pml2, pml1).Values == {pml4, pml3, pml2, pml1}
  {
    var tree := BootTree(pml4, pml3, pml2, pml1);
    assert [] in tree && [256] in tree && [256, 0] in tree && [256, 0, 1] in tree;
    assert tree[[]] == pml4 && tree[[256]] == pml3 && tree[[256, 0]] == pml2 && tree[[256, 0, 1]] == pml1;
  }

  /** For a mapped page: its entry is ALLOCATED exactly when the tree has its frame. */
  lemma OwnedEntry(mem: Memory, root: nat, tree: Tree, pages: map<nat, nat>, n: nat)
    requires TreeOk(mem, root, tree) && Abstracts(mem, root, pages) && n in pages
    ensures n < PAGES && PathOf(n)[0] != 511 && Present(pages[n])
    ensures Allocated(pages[n]) <==> PathOf(n) in tree
    ensures PathOf(n) in tree ==> tree[PathOf(n)] == pages[n] / 4096 == EntryFrame(pages[n]) && pages[n] / 4096 in mem
  {
    var q := PathOf(n);
    assert TranslationOf(mem, root, n) == Leaf(pages[n]);
    WalkIs(mem, root, tree, q);
    ChildOfParent(q);
    if q in tree {
      assert LinkAt(mem, tree, q);
    }
  }

  /** The frame behind a page whose entry is ALLOCATED is no page table: its words are data. */
  lemma DataFrame(mem: Memory, root: nat, tree: Tree, pages: map<nat, nat>, n: nat)
    requires TreeOk(mem, root, tree) && Abstracts(mem, root, pages) && n in pages && Allocated(pages[n])
    ensures pages[n] / 4096 in mem && !IsTable(tree, pages[n] / 4096)
  {
    OwnedEntry(mem, root, tree, pages, n);
    assert |PathOf(n)| == 4;
  }

  lemma RamFrames(mem: Memory, root: nat, tree: Tree)
    requires TreeOk(mem, root, tree)
    ensures forall f :: f in mem ==> f < FRAMES
  {}

  /** Writing data moves no page. */
  lemma DataAbstracts(mem: Memory, root: nat, tree: Tree, pages: map<nat, nat>, f: nat, i: Index, v: nat)
    requires TreeOk(mem, root, tree) && Abstracts(mem, root, pages) && f in mem && !IsTable(tree, f)
    ensures TreeOk(WriteWord(mem, f, i, v), root, tree) && Abstracts(WriteWord(mem, f, i, v), root, pages)
  {
    var mem' := WriteWord(mem, f, i, v);
    assert forall q :: q in tree && |q| <= 3 && tree[q] == f ==> IsTable(tree, f);
    DataWrite(mem, root, tree, f, i, v);
    forall n: nat ensures TranslationOf(mem', root, n) == TranslationOf(mem, root, n) {
      if n < PAGES && PathOf(n)[0] != 511 {
        WalkIs(mem, root, tree, PathOf(n));
        WalkIs(mem', root, tree, PathOf(n));
      }
    }
  }

  class PageMapper {
    var mem: Memory
    const root: nat
    const physicalMemory: BlockMap
    /** All frames the kernel manages, page tables included. */
    ghost const pool: set<nat>
    ghost var tree: Tree
    /** Frames handed out by `allocateFrame` and not mapped yet. */
    ghost var held: set<nat>
    /** Frames dropped by a full block map or overwritten while mapped. */
    ghost var lost: set<nat>
    /** The abstract page map: page number to entry. */
    ghost var pages: map<nat, nat>

    /** Boot: the four static tables, and a block map of frames apart from them. */
    constructor (memory: Memory, pml4: nat, pml3: nat, pml2: nat, pml1: nat, physical: BlockMap)
      requires BootFrames(memory, pml4, pml3, pml2, pml1) && 0 !in {pml4, pml3, pml2, pml1}
      requires physical.Valid() && Paged(physical.Contents())
      requires var free := PagesOf(physical.Contents());
               free <= memory.Keys && free !! {0, pml4, pml3, pml2, pml1}
      ensures Valid() && physicalMemory == physical
      ensures pages == BootPages() && held == {} && lost == {} && tree == BootTree(pml4, pml3, pml2, pml1)
    {
      hide TreeOk, Paged, PagesOf, BootPml4, BootPml3, BootPml2, BootPml1, BootPages, Abstracts, BootTree;
      var t4, t3, t2, t1 := InitPageTables(pml4, pml3, pml2, pml1);
      mem := memory[pml4 := t4][pml3 := t3][pml2 := t2][pml1 := t1];
      root := pml4;
      physicalMemory := physical;
      tree := BootTree(pml4, pml3, pml2, pml1);
      held, lost, pages := {}, {}, BootPages();
      pool := PagesOf(physical.Contents()) + {pml4, pml3, pml2, pml1};
      new;
      BootTreeOk(memory, pml4, pml3, pml2, pml1);
      BootAbstracts(memory, pml4, pml3, pml2, pml1);
      BootValues(pml4, pml3, pml2, pml1);
    }

    ghost predicate Valid()
      reads this, physicalMemory, physicalMemory.blocks
    {
      && physicalMemory.Valid()
      && Paged(physicalMemory.Contents())
      && TreeOk(mem, root, tree)
      && Books(pool, Free(), held, tree, lost, mem)
      && Abstracts(mem, root, pages)
    }

    ghost function Free(): set<nat>
      requires physicalMemory.Valid()
      reads this, physicalMemory, physicalMemory.blocks
    {
      PagesOf(physicalMemory.Contents())
    }

    /** `PMLnENTRY = allocatePageTable(); memset(PMLn-1TABLE, 0, 4096)`. */
    method InstallAt(ghost q: Path, i: Index, entryAddress: nat, tableAddress: nat)
      requires Valid() && q in tree && |q| <= 2 && (q == [] ==> i != 511)
      requires entryAddress == EntryAt(TableAddress(q), i)
      requires tableAddress == EntryAt(TableAddress(Child(q, i)), 0)
      requires Child(q, i) !in tree && Free() != {}
      modifies this`mem, this`tree, physicalMemory.blocks
      ensures Valid()
      ensures tree.Keys == old(tree).Keys + {Child(q, i)}
      ensures |Free()| == old(|Free()|) - 1
      ensures Grown(old(mem), old(tree), old(Free()), mem, tree, Free())
    {
      hide TreeOk, Abstracts, Paged, PagesOf, Store, ZeroPage, EntryAt, TableAddress, Accessible, Grown, Hung, Books,
           CanInstall, TableEntry;
      var frame := AllocateFrame(physicalMemory);
      FreeCanInstall(mem, root, tree, q, i, frame, pool, old(Free()), held, lost);
      InstallThroughMacros(mem, root, tree, q, i, frame);
      InstallCompletes(mem, root, tree, q, i, frame);
      InstallAbstracts(mem, root, tree, q, i, frame, pages);
      InstallGrows(mem, root, tree, q, i, frame, old(Free()));
      mem := Store(mem, root, entryAddress, TableEntry(frame));
      mem := ZeroPage(mem, root, tableAddress);
      tree := tree[Child(q, i) := frame];
    }

    /** One level of `getPageTableEntry`: make sure the table below entry `i` of the table at
        `q` exists. */
    method Descend(ghost q: Path, i: Index, entryAddress: nat, tableAddress: nat, allocate: bool) returns (ok: bool)
      requires Valid() && q in tree && |q| <= 2 && (q == [] ==> i != 511)
      requires entryAddress == EntryAt(TableAddress(q), i)
      requires tableAddress == EntryAt(TableAddress(Child(q, i)), 0)
      requires allocate && Child(q, i) !in tree ==> Free() != {}
      modifies this`mem, this`tree, physicalMemory.blocks
      ensures Valid()
      ensures ok <==> Child(q, i) in tree
      ensures allocate ==> ok
      ensures !allocate ==> mem == old(mem) && tree == old(tree)
      ensures !allocate ==> physicalMemory.Contents() == old(physicalMemory.Contents())
      ensures tree.Keys == old(tree).Keys + if allocate then {Child(q, i)} else {}
      ensures |Free()| == old(|Free()|) - if allocate && Child(q, i) !in old(tree) then 1 else 0
      ensures Grown(old(mem), old(tree), old(Free()), mem, tree, Free())
    {
      hide TreeOk, Abstracts, Paged, PagesOf, EntryAt, TableAddress, Accessible, Load, Books, Grown;
      EntryTells(mem, root, tree, q, i);
      GrownReflexive(mem, tree, Free());
      var entry := Load(mem, root, entryAddress);
      FlagTests(entry);
      if BitAnd(entry, PRESENT) == 0 {
        if allocate {
          InstallAt(q, i, entryAddress, tableAddress);
          ok := true;
        } else {
          ok := false;
        }
      } else {
        ok := true;
      }
    }

    /** What `getPageTableEntry` answers: the address of the PML1 entry if its table exists. */
    ghost predicate Found(q: Path, entry: Option<nat>)
      requires |q| == 4
      reads this
    {
      entry == if Parent(q) in tree then Some(EntryAt(TableAddress(Parent(q)), Last(q))) else None
    }

    /** The three blocks of `getPageTableEntry` that make sure the tables exist. */
    method EntryByIndices(i4: Index, i3: Index, i2: Index, i1: Index, allocate: bool) returns (entry: Option<nat>)
      requires Valid() && i4 != 511
      requires allocate ==> |Free()| >= Missing(tree, [i4, i3, i2, i1])
      modifies this`mem, this`tree, physicalMemory.blocks
      ensures Valid()
      ensures Found([i4, i3, i2, i1], entry)
      ensures allocate ==> entry.Some?
      ensures !allocate ==> mem == old(mem) && tree == old(tree)
      ensures !allocate ==> physicalMemory.Contents() == old(physicalMemory.Contents())
      ensures |Free()| == old(|Free()|) - if allocate then old(Missing(tree, [i4, i3, i2, i1])) else 0
      ensures Grown(old(mem), old(tree), old(Free()), mem, tree, Free())
    {
      hide TreeOk, Abstracts, Paged, PagesOf, Books, Grown, EntryAt, TableAddress, Pml4Table, Pml3Table, Pml2Table,
           Pml1Table, Missing, Child;
      Macros(i4, i3, i2);
      MissingIs(tree, i4, i3, i2, i1);
      Prefixes(mem, root, tree, i4, i3, i2);
      assert Parent([i4, i3, i2, i1]) == [i4, i3, i2];
      var ok := Descend([], i4, EntryAt(Pml4Table(), i4), Pml3Table(i4), allocate);
      if !ok {
        return None;
      }
      ghost var mem1, tree1, free1 := mem, tree, Free();
      ok := Descend([i4], i3, EntryAt(Pml3Table(i4), i3), Pml2Table(i4, i3), allocate);
      GrownTransitive(old(mem), old(tree), old(Free()), mem1, tree1, free1, mem, tree, Free());
      if !ok {
        return None;
      }
      ghost var mem2, tree2, free2 := mem, tree, Free();
      ok := Descend([i4, i3], i2, EntryAt(Pml2Table(i4, i3), i2), Pml1Table(i4, i3, i2), allocate);
      GrownTransitive(old(mem), old(tree), old(Free()), mem2, tree2, free2, mem, tree, Free());
      if !ok {
        return None;
      }
      return Some(EntryAt(Pml1Table(i4, i3, i2), i1));
    }

    /** The address of the PML1 entry of a page; none if a table on the way is missing and may
        not be allocated. */
    method GetPageTableEntry(virtualAddress: nat, allocatePageTables: bool) returns (entry: Option<nat>)
      requires Valid() && PathOf(PageOf(virtualAddress))[0] != 511
      requires allocatePageTables ==> |Free()| >= Missing(tree, PathOf(PageOf(virtualAddress)))
      modifies this`mem, this`tree, physicalMemory.blocks
      ensures Valid()
      ensures Found(PathOf(PageOf(virtualAddress)), entry)
      ensures allocatePageTables ==> entry.Some?
      ensures !allocatePageTables ==> mem == old(mem) && tree == old(tree)
      ensures !allocatePageTables ==> physicalMemory.Contents() == old(physicalMemory.Contents())
      ensures |Free()| == old(|Free()|)
                          - if allocatePageTables then old(Missing(tree, PathOf(PageOf(virtualAddress)))) else 0
      ensures Grown(old(mem), old(tree), old(Free()), mem, tree, Free())
    {
      hide TreeOk, Abstracts, Paged, PagesOf, Books, Grown, EntryAt, TableAddress, Missing;
      var address := virtualAddress % 0x1_0000_0000_0000;
      address := address / 4096;
      var pml1Index: Index := address % 512;
      address := address / 512;
      var pml2Index: Index := address % 512;
      address := address / 512;
      var pml3Index: Index := address % 512;
      address := address / 512;
      var pml4Index: Index := address % 512;
      assert PathOf(PageOf(virtualAddress)) == [pml4Index, pml3Index, pml2Index, pml1Index];
      entry := EntryByIndices(pml4Index, pml3Index, pml2Index, pml1Index, allocatePageTables);
    }

    /** Gives the page of `virtualAddress` the entry for `physicalAddress`. Nothing is flushed. */
    method MapPage(virtualAddress: nat, physicalAddress: nat, flags: nat, owned: bool, cacheable: bool)
      requires Valid() && PathOf(PageOf(virtualAddress))[0] != 511
      requires |Free()| >= Missing(tree, PathOf(PageOf(virtualAddress)))
      requires OwnedFrame(MapEntry(physicalAddress, flags, owned, cacheable)) <= held
      modifies this`mem, this`tree, this`held, this`lost, this`pages, physicalMemory.blocks
      ensures Valid()
      ensures pages == Remapped(old(pages), PageOf(virtualAddress), MapEntry(physicalAddress, flags, owned, cacheable))
      ensures held == old(held) - OwnedFrame(MapEntry(physicalAddress, flags, owned, cacheable))
      ensures lost == old(lost) + FrameOf(old(tree), PathOf(PageOf(virtualAddress)))
      ensures Free() <= old(Free())
      ensures |Free()| == old(|Free()| - Missing(tree, PathOf(PageOf(virtualAddress))))
      ensures Missing(tree, PathOf(PageOf(virtualAddress))) == 0
      ensures KeptBut(PathOf(PageOf(virtualAddress)), old(mem), old(tree), old(Free()), mem, tree)
    {
      hide TreeOk, Abstracts, Paged, PagesOf, Books, Grown, EntryAt, TableAddress, Missing, PathOf, PageOf,
           Store, Accessible, Remapped, KeptBut, OwnedFrame, FrameOf;
      var newFlags := flags + PRESENT;
      if owned {
        newFlags := newFlags + ALLOCATED;
      }
      if !cacheable {
        newFlags := newFlags + UNCACHEABLE;
      }
      var pageTableEntry := BitOr(newFlags, physicalAddress / 4096 * 4096);
      assert pageTableEntry == MapEntry(physicalAddress, flags, owned, cacheable);
      hide MapEntry;
      var address := GetPageTableEntry(virtualAddress, true);
      ghost var c := PathOf(PageOf(virtualAddress));
      ghost var mem1, tree1 := mem, tree;
      LeafStore(mem, root, tree, Parent(c), Last(c), pageTableEntry);
      WriteEntry(c, PageOf(virtualAddress), address.value, pageTableEntry);
      FrameOfGrown(c, old(mem), old(tree), old(Free()), mem1, tree1, Free());
      ChildOfParent(c);
      NoneMissing(mem1, root, tree1, c, pageTableEntry);
      GrownThenWritten(Parent(c), Last(c), pageTableEntry, old(mem), old(tree), old(Free()), mem1, tree1, Free());
    }

    /** `*entry = e` for the PML1 entry of the page with path `c`. */
    method WriteEntry(ghost c: Path, ghost n: nat, address: nat, e: nat)
      requires Valid() && |c| == 4 && Found(c, Some(address))
      requires n < PAGES && PathOf(n) == c && c[0] != 511
      requires OwnedFrame(e) <= held
      modifies this`mem, this`tree, this`held, this`lost, this`pages
      ensures Valid()
      ensures Parent(c) in old(tree) && old(tree)[Parent(c)] in old(mem)
      ensures mem == WriteWord(old(mem), old(tree)[Parent(c)], Last(c), e)
      ensures tree == Rehung(old(tree), Parent(c), Last(c), e)
      ensures pages == Remapped(old(pages), n, e)
      ensures held == old(held) - OwnedFrame(e)
      ensures lost == old(lost) + FrameOf(old(tree), c)
    {
      hide TreeOk, Abstracts, Paged, PagesOf, Books, EntryAt, TableAddress, PathOf, Store, Load, Accessible, Remapped,
           OwnedFrame, FrameOf, WriteWord, CanWriteLeaf, Rehung;
      ghost var q, i := Parent(c), Last(c);
      ChildOfParent(c);
      LeafStore(mem, root, tree, q, i, e);
      LeafBooks(mem, root, tree, q, i, e, pool, Free(), held, lost);
      LeafWrite(mem, root, tree, q, i, e);
      LeafAbstracts(mem, root, tree, q, i, e, n, pages);
      mem := Store(mem, root, address, e);
      pages := Remapped(pages, n, e);
      held := held - OwnedFrame(e);
      lost := lost + FrameOf(tree, c);
      tree := Rehung(tree, q, i, e);
    }

    lemma Absent(n: nat)
      requires Valid() && n < PAGES && PathOf(n)[0] != 511 && Parent(PathOf(n)) !in tree
      ensures physicalMemory.Valid() && n !in pages && PathOf(n) !in tree
    {
      hide TreeOk, Abstracts, Paged, Books;
      AbsentPage(mem, root, tree, pages, n);
    }

    /** Clears the entry of the page, if its tables exist, and gives back the frame the kernel had
        allocated for it. `cleared` tells whether `invalidateTlb` runs. */
    method UnmapPage(virtualAddress: nat) returns (cleared: bool)
      requires Valid() && PathOf(PageOf(virtualAddress))[0] != 511
      modifies this`mem, this`tree, this`held, this`lost, this`pages, physicalMemory, physicalMemory.blocks
      ensures Valid()
      ensures cleared <==> Parent(PathOf(PageOf(virtualAddress))) in old(tree)
      ensures pages == old(pages) - {PageOf(virtualAddress)}
      ensures tree == old(tree) - {PathOf(PageOf(virtualAddress))}
      ensures held == old(held)
      ensures var back := FrameOf(old(tree), PathOf(PageOf(virtualAddress)));
              && Free() == old(Free()) + (if old(Full(physicalMemory.Contents())) then {} else back)
              && lost == old(lost) + (if old(Full(physicalMemory.Contents())) then back else {})
      ensures |physicalMemory.Contents()| <= old(|physicalMemory.Contents()|) + 1
      ensures KeptBut(PathOf(PageOf(virtualAddress)), old(mem), old(tree), old(Free()), mem, tree)
    {
      hide Valid, PagesOf, EntryAt, TableAddress, PathOf, PageOf, Grown, Full, KeptBut, Missing;
      ghost var c, n := PathOf(PageOf(virtualAddress)), PageOf(virtualAddress);
      var address := GetPageTableEntry(virtualAddress, false);
      cleared := address.Some?;
      if cleared {
        ClearEntry(c, n, address.value);
      } else {
        Absent(n);
        NothingWritten(c, mem, tree, Free());
        assert FrameOf(tree, c) == {} && tree - {c} == tree && pages - {n} == pages;
        assert Free() + {} == Free() && lost + {} == lost;
      }
    }

    method ClearEntry(ghost c: Path, ghost n: nat, address: nat)
      requires Valid() && |c| == 4 && Found(c, Some(address))
      requires n < PAGES && PathOf(n) == c && c[0] != 511
      modifies this`mem, this`tree, this`lost, this`pages, physicalMemory, physicalMemory.blocks
      ensures Valid()
      ensures pages == old(pages) - {n}
      ensures tree == old(tree) - {c}
      ensures Free() == old(Free()) + (if old(Full(physicalMemory.Contents())) then {} else FrameOf(old(tree), c))
      ensures lost == old(lost) + (if old(Full(physicalMemory.Contents())) then FrameOf(old(tree), c) else {})
      ensures |physicalMemory.Contents()| <= old(|physicalMemory.Contents()|) + 1
      ensures KeptBut(c, old(mem), old(tree), old(Free()), mem, tree)
    {
      hide TreeOk, Abstracts, Paged, PagesOf, Books, EntryAt, TableAddress, PathOf, Store, Load, Accessible,
           WriteWord, KeptBut, BitAnd, FrameOf, ReturnedFrame, Full;
      ghost var q, i := Parent(c), Last(c);
      ghost var free := Free();
      ChildOfParent(c);
      LeafStore(mem, root, tree, q, i, 0);
      LeafTells(mem, root, tree, q, i);
      LeafCleared(mem, root, tree, q, i, n, pages, pool, free, held, lost);
      var entry := Load(mem, root, address);
      if BitAnd(entry, ALLOCATED) != 0 {
        ReturnFrame(physicalMemory, ReturnedFrame(entry));
      }
      ghost var full, back := old(Full(physicalMemory.Contents())), FrameOf(tree, c);
      assert Free() == free + if full then {} else back;
      assert free + {} == free;
      mem := Store(mem, root, address, 0);
      pages := pages - {n};
      if old(Full(physicalMemory.Contents())) {
        lost := lost + FrameOf(tree, c);
      } else {
        ReturnedBooks(pool, free, held, tree - {c}, lost, mem, FrameOf(tree, c));
      }
      tree := tree - {c};
    }

    /** `allocateFrame`; 0 when no frame is left. */
    method TakeFrame() returns (frame: nat)
      requires Valid()
      modifies this`held, physicalMemory.blocks
      ensures Valid()
      ensures old(Free()) == {} ==> frame == 0 && held == old(held) && Free() == {}
      ensures old(Free()) != {} ==>
                && frame != 0 && frame in old(Free()) && frame < FRAMES
                && Free() == old(Free()) - {frame} && held == old(held) + {frame}
    {
      hide TreeOk, Abstracts, Paged, PagesOf;
      assert pool <= mem.Keys && 0 !in pool;
      RamFrames(mem, root, tree);
      frame := AllocateFrame(physicalMemory);
      if old(Free()) != {} {
        held := held + {frame};
      }
    }

    /** The word the kernel reads at a mapped address. */
    function Word(virtualAddress: nat): nat
      requires Accessible(mem, root, virtualAddress)
      reads this
    {
      Load(mem, root, virtualAddress)
    }

    /** The kernel writes a word of memory it has allocated. */
    method StoreWord(virtualAddress: nat, value: nat)
      requires Valid() && PageOf(virtualAddress) in pages && Allocated(pages[PageOf(virtualAddress)])
      modifies this`mem
      ensures Valid()
      ensures pages[PageOf(virtualAddress)] / 4096 in old(mem)
      ensures mem == WriteWord(old(mem), pages[PageOf(virtualAddress)] / 4096, virtualAddress % 4096 / 8, value)
      ensures Accessible(mem, root, virtualAddress) && Word(virtualAddress) == value
    {
      hide TreeOk, Paged, PagesOf, PathOf, PageOf, Walk;
      ghost var n := PageOf(virtualAddress);
      ghost var f := pages[n] / 4096;
      OwnedEntry(mem, root, tree, pages, n);
      DataFrame(mem, root, tree, pages, n);
      DataAbstracts(mem, root, tree, pages, f, virtualAddress % 4096 / 8, value);
      assert TranslationOf(mem, root, n) == Leaf(pages[n]);
      mem := Store(mem, root, virtualAddress, value);
      assert TranslationOf(mem, root, n) == Leaf(pages[n]);
    }
  }
}
