/** kernel/arch/x86_64/kernel/pageTableInit.cpp: the four boot tables. */
module PageTableInit {
  import opened Bits
  import opened PageTables
  import opened PageTree

  /** An entry with PRESENT and WRITABLE, joined by the `+` that stands for `|`. */
  function BootEntry(physical: nat): nat {
    physical + PRESENT + WRITABLE
  }

  const KERNEL_PHYSICAL: nat := 0x200000

  function BootPml4(pml4: nat, pml3: nat): Table {
    ZeroTable()[256 := BootEntry(pml3 * 4096)][511 := BootEntry(pml4 * 4096)]
  }

  function BootPml3(pml2: nat): Table { ZeroTable()[0 := BootEntry(pml2 * 4096)] }

  function BootPml2(pml1: nat): Table { ZeroTable()[1 := BootEntry(pml1 * 4096)] }

  function BootPml1(): (t: Table)
    ensures forall i: Index :: t[i] == BootEntry(i as int * 4096 + KERNEL_PHYSICAL)
  {
    var t: seq<nat> := seq(512, i requires 0 <= i => BootEntry(i * 4096 + KERNEL_PHYSICAL));
    t
  }

  /** The tables, filled in place by assignments and a loop; the arrays start zeroed. */
  method InitPageTables(pml4: nat, pml3: nat, pml2: nat, pml1: nat)
    returns (t4: Table, t3: Table, t2: Table, t1: Table)
    ensures t4 == BootPml4(pml4, pml3) && t3 == BootPml3(pml2) && t2 == BootPml2(pml1) && t1 == BootPml1()
  {
    t4, t3, t2, t1 := ZeroTable(), ZeroTable(), ZeroTable(), ZeroTable();
    t4 := t4[256 := BootEntry(pml3 * 4096)];
    t3 := t3[0 := BootEntry(pml2 * 4096)];
    t2 := t2[1 := BootEntry(pml1 * 4096)];
    var i := 0;
    while i < 512
      invariant i <= 512
      invariant forall k :: 0 <= k < i ==> t1[k] == BootEntry(k * 4096 + KERNEL_PHYSICAL)
    {
      t1 := t1[i := BootEntry(i * 4096 + KERNEL_PHYSICAL)];
      i := i + 1;
    }
    t4 := t4[511 := BootEntry(pml4 * 4096)];
  }

  ghost predicate Distinct(pml4: nat, pml3: nat, pml2: nat, pml1: nat) {
    pml4 != pml3 && pml4 != pml2 && pml4 != pml1 && pml3 != pml2 && pml3 != pml1 && pml2 != pml1
  }

  function BootMemory(mem: Memory, pml4: nat, pml3: nat, pml2: nat, pml1: nat): Memory {
    mem[pml4 := BootPml4(pml4, pml3)][pml3 := BootPml3(pml2)][pml2 := BootPml2(pml1)][pml1 := BootPml1()]
  }

  function BootTree(pml4: nat, pml3: nat, pml2: nat, pml1: nat): Tree {
    map[[] := pml4, [256] := pml3, [256, 0] := pml2, [256, 0, 1] := pml1]
  }

  lemma BootEntryBits(f: nat)
    ensures var e := BootEntry(f * 4096);
            Present(e) && !Allocated(e) && !IsLarge(e) && e / 4096 == f && e == f * 4096 + 3
  {
    LowBits(f, 3);
    Quotient(f * 4096 + 3, 128, 32 * f, 3);
    Quotient(32 * f, 2, 16 * f, 0);
  }

  ghost predicate BootFrames(mem: Memory, pml4: nat, pml3: nat, pml2: nat, pml1: nat) {
    Ram(mem) && Distinct(pml4, pml3, pml2, pml1) && pml4 in mem && pml3 in mem && pml2 in mem && pml1 in mem
  }

  /** Which words of the boot tables are not zero, and what they are. */
  lemma BootWords(mem: Memory, pml4: nat, pml3: nat, pml2: nat, pml1: nat)
    requires BootFrames(mem, pml4, pml3, pml2, pml1)
    ensures var m := BootMemory(mem, pml4, pml3, pml2, pml1);
            && m.Keys == mem.Keys
            && m[pml4] == BootPml4(pml4, pml3) && m[pml3] == BootPml3(pml2)
            && m[pml2] == BootPml2(pml1) && m[pml1] == BootPml1()
  {}

  lemma BootLinked(mem: Memory, pml4: nat, pml3: nat, pml2: nat, pml1: nat)
    requires BootFrames(mem, pml4, pml3, pml2, pml1)
    ensures Linked(BootMemory(mem, pml4, pml3, pml2, pml1), pml4, BootTree(pml4, pml3, pml2, pml1))
  {
    var tree := BootTree(pml4, pml3, pml2, pml1);
    var mem' := BootMemory(mem, pml4, pml3, pml2, pml1);
    BootWords(mem, pml4, pml3, pml2, pml1);
    hide BootMemory;
    BootEntryBits(pml4);
    BootEntryBits(pml3);
    BootEntryBits(pml2);
    BootEntryBits(pml1);
    hide BootEntry;
    assert Parent([256]) == [] && Parent([256, 0]) == [256] && Parent([256, 0, 1]) == [256, 0];
    assert LinkAt(mem', tree, [256]) && LinkAt(mem', tree, [256, 0]) && LinkAt(mem', tree, [256, 0, 1]);
  }

  /** No page of the boot tables owns its frame. */
  lemma BootLeaf(i: Index)
    ensures !Allocated(BootPml1()[i]) && Present(BootPml1()[i])
  {
    BootEntryBits(i as int + 512);
    assert BootPml1()[i] == BootEntry((i as int + 512) * 4096);
  }

  lemma BootComplete(mem: Memory, pml4: nat, pml3: nat, pml2: nat, pml1: nat, q: Path, i: Index)
    requires BootFrames(mem, pml4, pml3, pml2, pml1)
    requires q in BootTree(pml4, pml3, pml2, pml1) && (q == [] ==> i != 511)
    requires Owns(BootMemory(mem, pml4, pml3, pml2, pml1)[BootTree(pml4, pml3, pml2, pml1)[q]][i], |q|)
    ensures Child(q, i) in BootTree(pml4, pml3, pml2, pml1)
  {
    BootWords(mem, pml4, pml3, pml2, pml1);
    hide BootMemory, BootEntry;
    BootLeaf(i);
    assert !Present(0);
    if q == [] {
      assert i == 256 && Child(q, i) == [256];
    } else if q == [256] {
      assert i == 0 && Child(q, i) == [256, 0];
    } else if q == [256, 0] {
      assert i == 1 && Child(q, i) == [256, 0, 1];
    }
  }

  /** The boot tables form a tree: slot 511 is recursive and no page owns its frame. */
  lemma BootTreeOk(mem: Memory, pml4: nat, pml3: nat, pml2: nat, pml1: nat)
    requires BootFrames(mem, pml4, pml3, pml2, pml1)
    ensures TreeOk(BootMemory(mem, pml4, pml3, pml2, pml1), pml4, BootTree(pml4, pml3, pml2, pml1))
  {
    var tree := BootTree(pml4, pml3, pml2, pml1);
    var mem' := BootMemory(mem, pml4, pml3, pml2, pml1);
    BootLinked(mem, pml4, pml3, pml2, pml1);
    assert OnePlaceEach(tree);
    hide BootMemory, BootTree;
    forall q, i: Index | q in tree && |q| <= 3 && (q == [] ==> i != 511) && tree[q] in mem'
                         && Owns(mem'[tree[q]][i], |q|)
      ensures Child(q, i) in tree
    {
      BootComplete(mem, pml4, pml3, pml2, pml1, q, i);
    }
  }

  /** Page number of the first page of the kernel image, at slot 256, and how many it has. */
  const KERNEL_PAGE: nat := 0x8_0000_0200

  lemma KernelPage(i: Index)
    ensures PathOf(KERNEL_PAGE + i as int) == [256, 0, 1, i]
  {
    assert PageAt([256, 0, 1, i]) == KERNEL_PAGE + i as int;
    PathPage([256, 0, 1, i]);
  }

  predicate IsKernelPage(n: nat) {
    KERNEL_PAGE <= n < KERNEL_PAGE + 512
  }

  /** The 512 pages of the kernel image, mapped to physical addresses from 2 MB on. */
  function BootPages(): map<nat, nat> {
    map n: nat | n < KERNEL_PAGE + 512 && IsKernelPage(n) :: BootEntry((n - KERNEL_PAGE) * 4096 + KERNEL_PHYSICAL)
  }

  lemma KernelPages(n: nat)
    requires n < PAGES
    ensures IsKernelPage(n) <==> Parent(PathOf(n)) == [256, 0, 1]
    ensures IsKernelPage(n) ==> Last(PathOf(n)) == n - KERNEL_PAGE
  {
    if IsKernelPage(n) {
      KernelPage(n - KERNEL_PAGE);
    }
    if Parent(PathOf(n)) == [256, 0, 1] {
      var i := Last(PathOf(n));
      KernelPage(i);
      PagePath(n);
      PagePath(KERNEL_PAGE + i as int);
      assert PathOf(n) == [256, 0, 1, i];
    }
  }

  lemma BootPagesAre(n: nat)
    ensures IsKernelPage(n) ==> BootPages()[n] == 0x20_0000 + (n - 0x8_0000_0200) * 4096 + 3
  {}

  /** What the boot tables map: the kernel image and nothing else outside slot 511. */
  lemma BootWalk(mem: Memory, pml4: nat, pml3: nat, pml2: nat, pml1: nat, n: nat)
    requires BootFrames(mem, pml4, pml3, pml2, pml1) && n < PAGES && PathOf(n)[0] != 511
    ensures Walk(BootMemory(mem, pml4, pml3, pml2, pml1), pml4, PathOf(n))
            == if IsKernelPage(n) then Leaf(BootPages()[n]) else Fault
    ensures IsKernelPage(n) <==> 0x8_0000_0200 <= n < 0x8_0000_0400
    ensures IsKernelPage(n) ==> BootPages()[n] == 0x20_0000 + (n - 0x8_0000_0200) * 4096 + 3
  {
    hide BootMemory, PathOf, BootEntry, TreeOk, Walk, Present;
    BootPagesAre(n);
    var q := PathOf(n);
    BootTreeOk(mem, pml4, pml3, pml2, pml1);
    WalkIs(BootMemory(mem, pml4, pml3, pml2, pml1), pml4, BootTree(pml4, pml3, pml2, pml1), q);
    BootWords(mem, pml4, pml3, pml2, pml1);
    KernelPages(n);
    BootLeaf(Last(q));
    assert |Parent(q)| == 3;
  }
}
