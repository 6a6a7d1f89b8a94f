/** What the page loops of kernel/memory/kmalloc.cpp do to ranges of pages, on values. */
module PageRanges {
  import opened Bits
  import opened Blocks
  import opened Frames
  import opened PageTables
  import opened PageTree
  import opened Paging
  import opened Tlbs

  /** Every frame in the tree is behind a mapped page: ALLOCATED entries are PRESENT. */
  ghost predicate OwnedMapped(tree: Tree, pages: map<nat, nat>) {
    forall q :: q in tree && |q| == 4 ==> PageAt(q) in pages
  }

  /** The paths of the three tables on the way to a page. */
  function TablesOf(p: nat): set<Path> {
    var q := PathOf(Low(p));
    {q[..1], q[..2], q[..3]}
  }

  /** The page tables that the pages of `s` need and that do not exist yet. */
  ghost function MissingTables(tree: Tree, s: set<nat>): set<Path> {
    set p, q | p in s && q in TablesOf(p) && q !in tree :: q
  }

  lemma MissingOfPage(tree: Tree, p: nat)
    ensures Missing(tree, PathOf(Low(p))) == |TablesOf(p) - tree.Keys|
  {
    hide PathOf, Low;
    var q := PathOf(Low(p));
    assert |q[..1]| == 1 && |q[..2]| == 2 && |q[..3]| == 3;
    CountOutside(q[..1], q[..2], q[..3], tree.Keys);
  }

  lemma CountOutside<T>(a: T, b: T, c: T, known: set<T>)
    requires a != b && a != c && b != c
    ensures |{a, b, c} - known|
            == (if a in known then 0 else 1) + (if b in known then 0 else 1) + (if c in known then 0 else 1)
  {
    var x: set<T> := if a in known then {} else {a};
    var y: set<T> := if b in known then x else x + {b};
    var z: set<T> := if c in known then y else y + {c};
    assert b !in x && c !in y;
    assert {a, b, c} - known == z;
  }

  lemma Smaller<T>(small: set<T>, large: set<T>)
    requires small <= large
    ensures |small| <= |large|
  {
    assert large == small + (large - small);
  }

  /** One page of `s` needs at most the tables that all of them need. */
  lemma MissingPart(tree: Tree, s: set<nat>, p: nat)
    requires p in s
    ensures Missing(tree, PathOf(Low(p))) <= |MissingTables(tree, s)|
  {
    MissingOfPage(tree, p);
    Smaller(TablesOf(p) - tree.Keys, MissingTables(tree, s));
  }

  /** Mapping one page makes its tables, so that the other pages need that many fewer. */
  lemma MissingLess(tree: Tree, s: set<nat>, p: nat, mem: Memory, free: set<nat>, mem': Memory, tree': Tree)
    requires p in s && KeptBut(PathOf(Low(p)), mem, tree, free, mem', tree') && Missing(tree', PathOf(Low(p))) == 0
    ensures |MissingTables(tree', s - {p})| + Missing(tree, PathOf(Low(p))) <= |MissingTables(tree, s)|
  {
    hide PathOf, Low, TablesOf, MissingTables, Missing, KeptBut;
    var made, rest, all := TablesOf(p) - tree.Keys, MissingTables(tree', s - {p}), MissingTables(tree, s);
    MissingOfPage(tree, p);
    forall q | q in rest ensures q in all && q !in made {
      StillMissing(tree, s, p, mem, free, mem', tree', q);
    }
    MissingHere(tree, s, p);
    Smaller(rest + made, all);
  }

  lemma MissingHere(tree: Tree, s: set<nat>, p: nat)
    requires p in s
    ensures TablesOf(p) - tree.Keys <= MissingTables(tree, s)
  {
    hide TablesOf;
  }

  /** A table missing for another page was missing before, and is none of those made for `p`. */
  lemma StillMissing(tree: Tree, s: set<nat>, p: nat, mem: Memory, free: set<nat>, mem': Memory, tree': Tree, q: Path)
    requires KeptBut(PathOf(Low(p)), mem, tree, free, mem', tree') && Missing(tree', PathOf(Low(p))) == 0
    requires q in MissingTables(tree', s - {p})
    ensures q in MissingTables(tree, s) && q !in TablesOf(p) - tree.Keys
  {
    hide PathOf, Low;
    TablesMade(tree', p);
    var p' :| p' in s && q in TablesOf(p') && q !in tree';
    assert |q| <= 3;
  }

  lemma TablesMade(tree: Tree, p: nat)
    requires Missing(tree, PathOf(Low(p))) == 0
    ensures TablesOf(p) <= tree.Keys
  {}

  lemma OwnedMappedKept(c: Path, mem: Memory, tree: Tree, free: set<nat>, mem': Memory, tree': Tree,
                        pages: map<nat, nat>, n: nat, e: nat)
    requires KeptBut(c, mem, tree, free, mem', tree') && OwnedMapped(tree, pages)
    requires n < PAGES && c == PathOf(n) && Present(e)
    ensures OwnedMapped(tree', pages[n := e])
  {
    PagePath(n);
    forall q | q in tree' && |q| == 4 ensures PageAt(q) in pages[n := e] {
      if q != c {
        assert q in tree;
      }
    }
  }

  lemma OwnedMappedLess(tree: Tree, pages: map<nat, nat>, n: nat)
    requires OwnedMapped(tree, pages) && n < PAGES
    ensures OwnedMapped(tree - {PathOf(n)}, pages - {n})
  {
    forall q | q in tree - {PathOf(n)} && |q| == 4 ensures PageAt(q) in pages - {n} {
      PathPage(q);
    }
  }

  /** The abstract page map changed only at the pages of `s`. */
  ghost predicate SameOutside(window: nat, pages: map<nat, nat>, pages': map<nat, nat>, s: set<nat>) {
    forall n :: High(window, n) !in s ==> (n in pages' <==> n in pages) && (n in pages ==> pages'[n] == pages[n])
  }

  /** Memory the kernel had allocated, outside the pages of `s`, holds what it held. */
  ghost predicate DataKept(window: nat, pages: map<nat, nat>, mem: Memory, mem': Memory, s: set<nat>) {
    forall n :: n in pages && Allocated(pages[n]) && High(window, n) !in s && pages[n] / 4096 in mem ==>
      pages[n] / 4096 in mem' && mem'[pages[n] / 4096] == mem[pages[n] / 4096]
  }

  /** The pages of `s` are mapped present and writable, each by an entry that owns its frame: bits 0, 1
      and 11. */
  ghost predicate OwnedPages(window: nat, pages: map<nat, nat>, s: set<nat>) {
    forall p :: p in s ==>
      InHeap(window, p) && Low(p) in pages && Allocated(pages[Low(p)]) && pages[Low(p)] % 4096 == 2051
  }

  lemma LoopStep(window: nat, pages: map<nat, nat>, mem: Memory, pages1: map<nat, nat>, mem1: Memory,
                 pages2: map<nat, nat>, mem2: Memory, s: set<nat>, p: nat)
    requires SameOutside(window, pages, pages1, s) && DataKept(window, pages, mem, mem1, s)
    requires SameOutside(window, pages1, pages2, {p}) && DataKept(window, pages1, mem1, mem2, {p})
    ensures SameOutside(window, pages, pages2, s + {p}) && DataKept(window, pages, mem, mem2, s + {p})
  {}

  lemma OwnedStep(window: nat, pages1: map<nat, nat>, pages2: map<nat, nat>, s: set<nat>, p: nat)
    requires OwnedPages(window, pages1, s) && OwnedPages(window, pages2, {p})
    requires SameOutside(window, pages1, pages2, {p})
    ensures OwnedPages(window, pages2, s + {p})
  {
    forall q | q in s && q != p ensures Low(q) in pages2 && pages2[Low(q)] == pages1[Low(q)] {
      HeapPage(window, q);
    }
  }

  /** The pages of `s` were mapped, each owning its frame, and nothing else changed. */
  ghost predicate Filled(window: nat, s: set<nat>, pages: map<nat, nat>, mem: Memory, pages': map<nat, nat>,
                         mem': Memory) {
    && OwnedPages(window, pages', s)
    && SameOutside(window, pages, pages', s)
    && DataKept(window, pages, mem, mem', s)
  }

  lemma FilledStart(window: nat, pages: map<nat, nat>, mem: Memory)
    ensures Filled(window, {}, pages, mem, pages, mem)
  {}

  lemma FilledStep(window: nat, pages: map<nat, nat>, mem: Memory, pages1: map<nat, nat>, mem1: Memory,
                   pages2: map<nat, nat>, mem2: Memory, s: set<nat>, p: nat)
    requires Filled(window, s, pages, mem, pages1, mem1) && Filled(window, {p}, pages1, mem1, pages2, mem2)
    ensures Filled(window, s + {p}, pages, mem, pages2, mem2)
  {
    LoopStep(window, pages, mem, pages1, mem1, pages2, mem2, s, p);
    OwnedStep(window, pages1, pages2, s, p);
  }

  /** Of the frames that were behind the pages of `s`, each is free or lost now; none that was
      free or lost before is taken. */
  ghost predicate FramesBack(s: set<nat>, pages: map<nat, nat>, gone: set<nat>, gone': set<nat>) {
    && gone <= gone'
    && forall p :: p in s && Low(p) in pages && Allocated(pages[Low(p)]) ==> pages[Low(p)] / 4096 in gone'
  }

  lemma FrameBack(mem: Memory, root: nat, tree: Tree, pages: map<nat, nat>, p: nat, gone: set<nat>)
    requires TreeOk(mem, root, tree) && Abstracts(mem, root, pages)
    ensures FramesBack({p}, pages, gone, gone + FrameOf(tree, PathOf(Low(p))))
  {
    if Low(p) in pages {
      OwnedEntry(mem, root, tree, pages, Low(p));
    }
  }

  lemma FramesBackStep(window: nat, s: set<nat>, p: nat, pages: map<nat, nat>, pages1: map<nat, nat>,
                       gone: set<nat>, gone1: set<nat>, gone2: set<nat>)
    requires FramesBack(s, pages, gone, gone1) && FramesBack({p}, pages1, gone1, gone2)
    requires SameOutside(window, pages, pages1, s) && InHeap(window, p)
    ensures FramesBack(s + {p}, pages, gone, gone2)
  {
    HeapPage(window, p);
  }

  /** After giving back `count` frames to a table of `blocks` blocks: it grew by as many blocks at
      most, and no frame was lost if it had room for them all. */
  ghost predicate NoneLost(blocks: nat, lost: set<nat>, blocks': nat, lost': set<nat>, count: nat) {
    blocks' <= blocks + count && (blocks + count <= BLOCKMAP_SIZE ==> lost' == lost)
  }

  lemma NoneLostStep(blocks: nat, lost: set<nat>, blocks1: nat, lost1: set<nat>, blocks2: nat, lost2: set<nat>,
                     count: nat)
    requires NoneLost(blocks, lost, blocks1, lost1, count) && NoneLost(blocks1, lost1, blocks2, lost2, 1)
    ensures NoneLost(blocks, lost, blocks2, lost2, count + 1)
  {}

  /** The pages of `s` were unmapped, their frames given back, and nothing else changed. */
  ghost predicate Emptied(window: nat, s: set<nat>, pages: map<nat, nat>, mem: Memory, gone: set<nat>,
                          pages': map<nat, nat>, mem': Memory, gone': set<nat>) {
    && SameOutside(window, pages, pages', s)
    && DataKept(window, pages, mem, mem', s)
    && FramesBack(s, pages, gone, gone')
  }

  lemma EmptiedStart(window: nat, pages: map<nat, nat>, mem: Memory, gone: set<nat>)
    ensures Emptied(window, {}, pages, mem, gone, pages, mem, gone)
  {}

  lemma EmptiedStep(window: nat, s: set<nat>, p: nat, pages: map<nat, nat>, mem: Memory, gone: set<nat>,
                    pages1: map<nat, nat>, mem1: Memory, gone1: set<nat>,
                    pages2: map<nat, nat>, mem2: Memory, gone2: set<nat>)
    requires Emptied(window, s, pages, mem, gone, pages1, mem1, gone1)
    requires Emptied(window, {p}, pages1, mem1, gone1, pages2, mem2, gone2) && InHeap(window, p)
    ensures Emptied(window, s + {p}, pages, mem, gone, pages2, mem2, gone2)
  {
    LoopStep(window, pages, mem, pages1, mem1, pages2, mem2, s, p);
    FramesBackStep(window, s, p, pages, pages1, gone, gone1, gone2);
  }

  /** The pages of `s` map one after another to the physical pages from `physical` on. */
  ghost predicate Linear(window: nat, s: set<nat>, base: nat, physical: nat, cacheable: bool, pages: map<nat, nat>) {
    forall p :: p in s ==>
      && InHeap(window, p) && base <= p && Low(p) in pages
      && pages[Low(p)] == MapEntry(physical + (p - base) * PAGE_SIZE, WRITABLE, false, cacheable)
  }

  /** The pages of `s` map `physical` linearly and nothing else changed. */
  ghost predicate MappedTo(window: nat, s: set<nat>, base: nat, physical: nat, cacheable: bool,
                           pages: map<nat, nat>, mem: Memory, pages': map<nat, nat>, mem': Memory) {
    && Linear(window, s, base, physical, cacheable, pages')
    && SameOutside(window, pages, pages', s)
    && DataKept(window, pages, mem, mem', s)
  }

  lemma MappedStart(window: nat, base: nat, physical: nat, cacheable: bool, pages: map<nat, nat>, mem: Memory)
    ensures MappedTo(window, {}, base, physical, cacheable, pages, mem, pages, mem)
  {}

  lemma LinearStep(window: nat, s: set<nat>, base: nat, physical: nat, cacheable: bool,
                   pages1: map<nat, nat>, pages2: map<nat, nat>, p: nat)
    requires Linear(window, s, base, physical, cacheable, pages1) && SameOutside(window, pages1, pages2, {p})
    requires Linear(window, {p}, base, physical, cacheable, pages2)
    ensures Linear(window, s + {p}, base, physical, cacheable, pages2)
  {
    hide MapEntry, PathOf;
    forall q | q in s && q != p ensures Low(q) in pages2 && pages2[Low(q)] == pages1[Low(q)] {
      HeapPage(window, q);
    }
  }

  lemma MappedStep(window: nat, s: set<nat>, base: nat, physical: nat, cacheable: bool, pages: map<nat, nat>,
                   mem: Memory,
                   pages1: map<nat, nat>, mem1: Memory, pages2: map<nat, nat>, mem2: Memory, p: nat)
    requires MappedTo(window, s, base, physical, cacheable, pages, mem, pages1, mem1)
    requires SameOutside(window, pages1, pages2, {p}) && DataKept(window, pages1, mem1, mem2, {p})
    requires InHeap(window, p) && base <= p && Low(p) in pages2
    requires pages2[Low(p)] == MapEntry(physical + (p - base) * PAGE_SIZE, WRITABLE, false, cacheable)
    ensures MappedTo(window, s + {p}, base, physical, cacheable, pages, mem, pages2, mem2)
  {
    hide MapEntry, SameOutside, DataKept, InHeap, Low;
    LoopStep(window, pages, mem, pages1, mem1, pages2, mem2, s, p);
    LinearStep(window, s, base, physical, cacheable, pages1, pages2, p);
  }

  /** The byte at `address` is the byte at `physical`. */
  ghost predicate TranslatesTo(pages: map<nat, nat>, address: nat, physical: nat) {
    && PageOf(address) in pages
    && EntryFrame(pages[PageOf(address)]) * PAGE_SIZE + address % PAGE_SIZE == physical
  }

  ghost predicate TranslatesByte(pages: map<nat, nat>, address: nat, physical: nat, k: nat) {
    TranslatesTo(pages, address + k, physical + k)
  }

  /** So does every byte of the range. */
  ghost predicate TranslatesAll(pages: map<nat, nat>, address: nat, physical: nat, size: nat) {
    forall k :: 0 <= k < size ==> TranslatesByte(pages, address, physical, k)
  }

  lemma LinearTranslates(window: nat, s: set<nat>, base: nat, physical: nat, cacheable: bool, pages: map<nat, nat>,
                         address: nat)
    requires Linear(window, s, base, physical, cacheable, pages) && physical % PAGE_SIZE == 0
    requires address / PAGE_SIZE in s
    requires physical + (address - base * PAGE_SIZE) < FRAMES * PAGE_SIZE
    ensures base * PAGE_SIZE <= address && TranslatesTo(pages, address, physical + (address - base * PAGE_SIZE))
  {
    hide MapEntry, PathOf;
    var p, k := address / PAGE_SIZE, address % PAGE_SIZE;
    HeapPage(window, p);
    PageOfByte(window, p, k);
    assert address == p * PAGE_SIZE + k;
    var target := physical + (p - base) * PAGE_SIZE;
    WritableEntry(target, false, cacheable);
    Quotient(target, PAGE_SIZE, physical / PAGE_SIZE + (p - base), 0);
    assert target / 4096 < FRAMES;
  }

  lemma PageOfByte(window: nat, p: nat, k: nat)
    requires InHeap(window, p) && k < PAGE_SIZE
    ensures PageOf(p * PAGE_SIZE + k) == Low(p)
  {
    var n := Low(p);
    assert p == window * PAGES + n;
    Quotient(p * PAGE_SIZE + k, 0x1_0000_0000_0000, window, n * PAGE_SIZE + k);
    Quotient(n * PAGE_SIZE + k, 4096, n, k);
  }

  /** The pages of a range split into the first and the rest. */
  lemma FirstPage(start: nat, end: nat)
    requires start % PAGE_SIZE == 0 && end % PAGE_SIZE == 0 && start < end
    ensures start + PAGE_SIZE <= end
    ensures var p := start / PAGE_SIZE;
            && p in PagesIn(Block(start, end))
            && PagesIn(Block(start, end)) - {p} == PagesIn(Block(start + PAGE_SIZE, end))
  {}

  lemma NoPages(start: nat)
    ensures PagesIn(Block(start, start)) == {}
  {}

  lemma NextPage(start: nat, mid: nat)
    requires start % PAGE_SIZE == 0 && mid % PAGE_SIZE == 0 && start <= mid
    ensures PagesIn(Block(start, mid)) + {mid / PAGE_SIZE} == PagesIn(Block(start, mid + PAGE_SIZE))
  {}

  /** One step of a page loop: `p` joins the pages done. */
  lemma SameOutsideStep(window: nat, pages: map<nat, nat>, pages1: map<nat, nat>, pages2: map<nat, nat>, s: set<nat>,
                        p: nat)
    requires SameOutside(window, pages, pages1, s) && InHeap(window, p)
    requires forall n :: n != Low(p) ==> (n in pages2 <==> n in pages1) && (n in pages1 ==> pages2[n] == pages1[n])
    ensures SameOutside(window, pages, pages2, s + {p})
  {
    HeapPage(window, p);
  }

  lemma DataKeptStep(window: nat, c: Path, free: set<nat>, pages: map<nat, nat>, mem: Memory,
                     pages1: map<nat, nat>, mem1: Memory, tree1: Tree, mem2: Memory, tree2: Tree, s: set<nat>,
                     root: nat, pool: set<nat>, held: set<nat>, lost: set<nat>)
    requires SameOutside(window, pages, pages1, s) && DataKept(window, pages, mem, mem1, s)
    requires TreeOk(mem1, root, tree1) && Abstracts(mem1, root, pages1) && Books(pool, free, held, tree1, lost, mem1)
    requires KeptBut(c, mem1, tree1, free, mem2, tree2)
    ensures DataKept(window, pages, mem, mem2, s)
  {
    forall n | n in pages && Allocated(pages[n]) && High(window, n) !in s && pages[n] / 4096 in mem
      ensures pages[n] / 4096 in mem2 && mem2[pages[n] / 4096] == mem[pages[n] / 4096]
    {
      DataFrame(mem1, root, tree1, pages1, n);
      OwnedEntry(mem1, root, tree1, pages1, n);
      assert tree1[PathOf(n)] in tree1.Values;
    }
  }

  /** The page `kfree` leaves behind, if any. */
  function Leaked(base: nat, size: nat): set<nat> {
    if 1 <= size % PAGE_SIZE <= 4088 then {} else {(base + PageAlignUp(size + 8)) / PAGE_SIZE - 1}
  }

  lemma LeakedIs(base: nat, size: nat)
    requires base % PAGE_SIZE == 0
    ensures PageAlignDown(base) == base
    ensures var taken := PagesIn(Block(base, base + PageAlignUp(size + 8)));
            var freed := PagesIn(Block(base, PageAlignUp(base + size)));
            freed <= taken && Leaked(base, size) <= taken && taken - freed == Leaked(base, size)
  {
    KfreeRange(base, size);
    var end := base + PageAlignUp(size + 8);
    assert end % PAGE_SIZE == 0;
  }

  lemma HeaderBase(address: nat)
    requires address % PAGE_SIZE == 8
    ensures (address - 8) % PAGE_SIZE == 0
  {}

  lemma FilledInHeap(window: nat, s: set<nat>, pages: map<nat, nat>, mem: Memory, pages': map<nat, nat>, mem': Memory)
    requires Filled(window, s, pages, mem, pages', mem')
    ensures forall p :: p in s ==> InHeap(window, p) && p > 0
    ensures SameOutside(window, pages, pages', s) && OwnedPages(window, pages', s)
  {}

  /** Mapping pages that were clean and unmapping some of them changes the rest at most. */
  lemma Restored(window: nat, free: set<nat>, pages: map<nat, nat>, tlbs: seq<Tlb>, pages1: map<nat, nat>, mem1: Memory,
                 pages2: map<nat, nat>, mem2: Memory, tlbs2: seq<Tlb>, taken: set<nat>, freed: set<nat>,
                 gone1: set<nat>, gone2: set<nat>)
    requires Clean(window, pages, tlbs, free) && freed <= taken <= free
    requires SameOutside(window, pages, pages1, taken) && OwnedPages(window, pages1, taken)
    requires Emptied(window, freed, pages1, mem1, gone1, pages2, mem2, gone2) && Clean(window, pages2, tlbs2, freed)
    ensures SameOutside(window, pages, pages2, taken - freed) && OwnedPages(window, pages2, taken - freed)
    ensures free - taken + freed == free - (taken - freed)
  {
    forall n | High(window, n) in freed ensures n !in pages && n !in pages2 {
      HeapPage(window, High(window, n));
    }
    forall p | p in taken - freed ensures High(window, Low(p)) == p {
      HeapPage(window, p);
    }
  }

  /** Mapping clean pages and unmapping all of them changes nothing. */
  lemma UndoneMapping(window: nat, pages: map<nat, nat>, tlbs: seq<Tlb>, pages1: map<nat, nat>, pages2: map<nat, nat>,
                      tlbs2: seq<Tlb>, s: set<nat>)
    requires Clean(window, pages, tlbs, s) && Clean(window, pages2, tlbs2, s)
    requires SameOutside(window, pages, pages1, s) && SameOutside(window, pages1, pages2, s)
    ensures pages2 == pages
  {
    forall n | High(window, n) in s ensures n !in pages && n !in pages2 {
      HeapPage(window, High(window, n));
    }
  }

  lemma CleanLess(window: nat, pages: map<nat, nat>, tlbs: seq<Tlb>, s: set<nat>, s': set<nat>)
    requires Clean(window, pages, tlbs, s) && s' <= s
    ensures Clean(window, pages, tlbs, s')
  {}

  lemma HeaderOffset(ptr: nat)
    requires ptr % PAGE_SIZE == 0
    ensures (ptr + 8) % PAGE_SIZE == 8
  {}

  lemma WholePage(size: nat)
    ensures PageAlignUp(size + 8) >= PAGE_SIZE
  {}

  lemma FirstIn(ptr: nat, total: nat)
    requires ptr % PAGE_SIZE == 0 && total >= PAGE_SIZE
    ensures ptr / PAGE_SIZE in PagesIn(Block(ptr, ptr + total))
  {}

  lemma OwnedAt(window: nat, s: set<nat>, pages: map<nat, nat>, mem: Memory, pages': map<nat, nat>, mem': Memory,
                p: nat)
    requires Filled(window, s, pages, mem, pages', mem') && p in s
    ensures InHeap(window, p) && Low(p) in pages' && Allocated(pages'[Low(p)])
  {}

  /** Writing into one of the new pages touches no page that was there before. */
  lemma HeaderKeeps(window: nat, s: set<nat>, pages: map<nat, nat>, mem: Memory, pages': map<nat, nat>, mem': Memory,
                    root: nat, tree: Tree, p: nat, i: Index, v: nat)
    requires Filled(window, s, pages, mem, pages', mem') && p in s
    requires TreeOk(mem', root, tree) && Abstracts(mem', root, pages')
    ensures InHeap(window, p) && Low(p) in pages' && pages'[Low(p)] / 4096 in mem'
    ensures Filled(window, s, pages, mem, pages', WriteWord(mem', pages'[Low(p)] / 4096, i, v))
  {
    hide PathOf;
    HeapPage(window, p);
    OwnedEntry(mem', root, tree, pages', Low(p));
    PagePath(Low(p));
    forall n | n in pages && Allocated(pages[n]) && High(window, n) !in s && pages[n] / 4096 in mem
      ensures pages[n] / 4096 != pages'[Low(p)] / 4096
    {
      OwnedEntry(mem', root, tree, pages', n);
      PagePath(n);
    }
  }

  /** What `kfree` gives back of what `kmalloc` took: all of it exactly when `size mod 4096` is in
      1..4088, otherwise all but the last page, since `kfree` leaves the header out of the size. */
  lemma KfreeRange(base: nat, size: nat)
    requires base % PAGE_SIZE == 0
    ensures PageAlignDown(base) == base
    ensures PageAlignUp(base + size) == base + PageAlignUp(size + 8) <==> 1 <= size % PAGE_SIZE <= 4088
    ensures !(1 <= size % PAGE_SIZE <= 4088) ==> PageAlignUp(base + size) + PAGE_SIZE == base + PageAlignUp(size + 8)
  {
    var q, r := size / PAGE_SIZE, size % PAGE_SIZE;
    var b := base / PAGE_SIZE;
    var up := if r == 0 then 0 else 1;
    Quotient(base + size + 4095, PAGE_SIZE, b + q + up, if r == 0 then 4095 else r - 1);
    var up8 := if r <= 4088 then 1 else 2;
    Quotient(size + 8 + 4095, PAGE_SIZE, q + up8, if r <= 4088 then r + 7 else r + 7 - PAGE_SIZE);
  }

  lemma SubRange(start: nat, mid: nat, end: nat)
    requires start <= mid <= end
    ensures PagesIn(Block(start, mid)) <= PagesIn(Block(start, end))
  {}

  lemma InRange(start: nat, mid: nat, end: nat)
    requires start % PAGE_SIZE == 0 && mid % PAGE_SIZE == 0 && end % PAGE_SIZE == 0 && start <= mid < end
    ensures mid / PAGE_SIZE in PagesIn(Block(start, end))
  {}

  /** The whole pages that a range of `size` bytes at `address` touches. */
  function Touched(address: nat, size: nat): (b: Span)
    ensures b.start % PAGE_SIZE == 0 && b.end % PAGE_SIZE == 0
  {
    Spans(address, size);
    Block(PageAlignDown(address), PageAlignUp(address + size))
  }

  /** The page of the byte `k` bytes after `address`. */
  function PageAfter(address: nat, k: nat): nat {
    (address + k) / 4096
  }

  /** The pages that hold a byte of the range, with no rounding. */
  ghost function BytePages(address: nat, size: nat): set<nat> {
    set k: nat | k < size :: PageAfter(address, k)
  }

  /** The pages touched are those that hold a byte of the range; an empty range touches the page it
      points into, unless it points to its start. */
  lemma TouchedIs(address: nat, size: nat)
    ensures PagesIn(Touched(address, size))
            == if size > 0 then BytePages(address, size) else if address % 4096 == 0 then {} else {address / 4096}
  {
    if size == 0 {
      EmptyTouched(address);
    } else {
      forall p ensures p in PagesIn(Touched(address, size)) <==> p in BytePages(address, size) {
        if p in BytePages(address, size) {
          var k: nat :| k < size && p == PageAfter(address, k);
          ByteTouched(address, size, k);
        }
        if p in PagesIn(Touched(address, size)) {
          PageHasByte(address, size, p);
        }
      }
    }
  }

  lemma EmptyTouched(address: nat)
    ensures PagesIn(Touched(address, 0)) == if address % 4096 == 0 then {} else {address / 4096}
  {
    var q, r := address / 4096, address % 4096;
    Quotient(q * 4096, 4096, q, 0);
    if r == 0 {
      Quotient(address + 4095, 4096, q, 4095);
    } else {
      Quotient(address + 4095, 4096, q + 1, r - 1);
      Quotient((q + 1) * 4096, 4096, q + 1, 0);
    }
  }

  /** No page too many: the first byte of a touched page is in the range, or the page is the first. */
  lemma PageHasByte(address: nat, size: nat, p: nat)
    requires size > 0 && p in PagesIn(Touched(address, size))
    ensures p in BytePages(address, size)
  {
    var lo, hi := address / 4096, (address + size + 4095) / 4096;
    Quotient(lo * 4096, 4096, lo, 0);
    Quotient(hi * 4096, 4096, hi, 0);
    assert lo <= p < hi;
    var k: nat := if p == lo then 0 else p * 4096 - address;
    assert k < size;
    Quotient(p * 4096, 4096, p, 0);
    assert PageAfter(address, k) == p;
  }

  /** A page-aligned range of rounded size touches the pages of its bytes. */
  lemma AlignedRange(ptr: nat, size: nat)
    requires ptr % PAGE_SIZE == 0 && size > 0
    ensures PagesIn(Block(ptr, ptr + PageAlignUp(size))) == BytePages(ptr, size)
  {
    var t, r := (size + 4095) / 4096, (size + 4095) % 4096;
    Quotient(ptr + size + 4095, 4096, ptr / 4096 + t, r);
    TouchedIs(ptr, size);
  }

  /** The entries of the pages of `s` have exactly these low bits. */
  ghost predicate FlaggedPages(pages: map<nat, nat>, s: set<nat>, low: nat) {
    forall p :: p in s ==> Low(p) in pages && pages[Low(p)] % 4096 == low
  }

  lemma MappedFlags(window: nat, s: set<nat>, base: nat, physical: nat, cacheable: bool,
                    pages: map<nat, nat>, mem: Memory, pages': map<nat, nat>, mem': Memory)
    requires MappedTo(window, s, base, physical, cacheable, pages, mem, pages', mem')
    ensures FlaggedPages(pages', s, if cacheable then 3 else 19)
  {
    hide Linear, FlaggedPages;
    LinearFlags(window, s, base, physical, cacheable, pages');
  }

  lemma LinearFlags(window: nat, s: set<nat>, base: nat, physical: nat, cacheable: bool, pages: map<nat, nat>)
    requires Linear(window, s, base, physical, cacheable, pages)
    ensures FlaggedPages(pages, s, if cacheable then 3 else 19)
  {
    hide MapEntry, InHeap, Low;
    forall p | p in s ensures pages[Low(p)] % 4096 == if cacheable then 3 else 19 {
      EntryFlags(physical + (p - base) * PAGE_SIZE, false, cacheable);
    }
  }

  /** Bytes in the pages that a range of `size` bytes at `address` touches. */
  function Spanned(address: nat, size: nat): (n: nat)
  {
    Spans(address, size);
    PageAlignUp(address + size) - PageAlignDown(address)
  }

  lemma Spans(address: nat, size: nat)
    ensures PageAlignDown(address) <= address <= address + size <= PageAlignUp(address + size)
    ensures (PageAlignUp(address + size) - PageAlignDown(address)) % PAGE_SIZE == 0
  {}

  /** Two ranges with the same offset and size touch equally many pages. */
  lemma SameSpan(physical: nat, ptr: nat, size: nat)
    requires ptr % PAGE_SIZE == 0
    ensures var address := ptr + physical % PAGE_SIZE;
            && PageAlignDown(address) == ptr && address / PAGE_SIZE == ptr / PAGE_SIZE
            && address % PAGE_SIZE == physical % PAGE_SIZE
            && PageAlignUp(address + size) == ptr + Spanned(physical, size)
  {
    var k := physical % PAGE_SIZE;
    Quotient(ptr + k, PAGE_SIZE, ptr / PAGE_SIZE, k);
    var t := (k + size + 4095) / PAGE_SIZE;
    var r := (k + size + 4095) % PAGE_SIZE;
    Quotient(ptr + k + size + 4095, PAGE_SIZE, ptr / PAGE_SIZE + t, r);
    Quotient(physical + size + 4095, PAGE_SIZE, physical / PAGE_SIZE + t, r);
  }

  lemma ByteTouched(address: nat, size: nat, k: nat)
    requires k < size
    ensures (address + k) / PAGE_SIZE in PagesIn(Touched(address, size))
  {
    var p, lo, hi := (address + k) / PAGE_SIZE, address / PAGE_SIZE, (address + size + 4095) / PAGE_SIZE;
    Quotient(lo * PAGE_SIZE, PAGE_SIZE, lo, 0);
    Quotient(hi * PAGE_SIZE, PAGE_SIZE, hi, 0);
    assert lo <= p < hi;
    assert Within(lo, p, hi);
  }

  /** Every byte of the range that `mapAddress` returns translates to its physical byte. */
  lemma MappedBytes(window: nat, pages: map<nat, nat>, physicalAddress: nat, address: nat, size: nat, cacheable: bool,
                    k: nat)
    requires address % PAGE_SIZE == physicalAddress % PAGE_SIZE && k < size
    requires physicalAddress + size <= FRAMES * PAGE_SIZE
    requires Linear(window, PagesIn(Touched(address, size)), address / PAGE_SIZE,
                    PageAlignDown(physicalAddress), cacheable, pages)
    ensures TranslatesTo(pages, address + k, physicalAddress + k)
  {
    var s := PagesIn(Touched(address, size));
    ByteTouched(address, size, k);
    hide Linear, TranslatesTo, PagesIn;
    LinearTranslates(window, s, address / PAGE_SIZE, PageAlignDown(physicalAddress), cacheable, pages, address + k);
  }

  lemma AllBytes(window: nat, pages: map<nat, nat>, physicalAddress: nat, address: nat, size: nat, cacheable: bool,
                 before: map<nat, nat>, mem: Memory, mem': Memory)
    requires address % PAGE_SIZE == physicalAddress % PAGE_SIZE && physicalAddress + size <= FRAMES * PAGE_SIZE
    requires MappedTo(window, PagesIn(Touched(address, size)), address / PAGE_SIZE,
                      PageAlignDown(physicalAddress), cacheable, before, mem, pages, mem')
    ensures TranslatesAll(pages, address, physicalAddress, size)
  {
    hide TranslatesTo, PagesIn, Linear;
    forall k | 0 <= k < size ensures TranslatesByte(pages, address, physicalAddress, k) {
      MappedBytes(window, pages, physicalAddress, address, size, cacheable, k);
    }
  }

  lemma PageDistance(ptr: nat, i: nat)
    requires ptr % PAGE_SIZE == 0 && i % PAGE_SIZE == 0
    ensures ptr / PAGE_SIZE <= (ptr + i) / PAGE_SIZE
    ensures ((ptr + i) / PAGE_SIZE - ptr / PAGE_SIZE) * PAGE_SIZE == i
  {}

  /** Moving one page from the rest of a range to the part done. */
  lemma LoopPages(start: nat, mid: nat, end: nat)
    requires start % PAGE_SIZE == 0 && mid % PAGE_SIZE == 0 && end % PAGE_SIZE == 0 && start <= mid < end
    ensures mid + PAGE_SIZE <= end && (mid + PAGE_SIZE) % PAGE_SIZE == 0
    ensures mid / PAGE_SIZE in PagesIn(Block(mid, end))
    ensures PagesIn(Block(mid, end)) - {mid / PAGE_SIZE} == PagesIn(Block(mid + PAGE_SIZE, end))
    ensures PagesIn(Block(start, mid)) + {mid / PAGE_SIZE} == PagesIn(Block(start, mid + PAGE_SIZE))
    ensures (end - mid) / PAGE_SIZE == (end - (mid + PAGE_SIZE)) / PAGE_SIZE + 1
  {
    FirstPage(mid, end);
    NextPage(start, mid);
  }

  lemma DataKeptLess(window: nat, pages: map<nat, nat>, mem: Memory, mem': Memory, p: nat)
    requires DataKept(window, pages, mem, mem', {})
    ensures DataKept(window, pages, mem, mem', {p})
  {}

  lemma LoopStart(window: nat, pages: map<nat, nat>, mem: Memory)
    ensures SameOutside(window, pages, pages, {}) && DataKept(window, pages, mem, mem, {})
  {}

  /** A free frame is not in a caller's hand, so taking it and mapping it leaves the hand as it was. */
  lemma HeldOnce(pool: set<nat>, free: set<nat>, held: set<nat>, tree: Tree, lost: set<nat>, mem: Memory, f: nat)
    requires Books(pool, free, held, tree, lost, mem) && f in free
    ensures held + {f} - {f} == held
    ensures f * PAGE_SIZE / 4096 == f
    ensures MapEntryIsOwned(f)
  {
    WritableOwned(f);
  }

  ghost predicate MapEntryIsOwned(f: nat) {
    var e := MapEntry(f * PAGE_SIZE, WRITABLE, true, true);
    Allocated(e) && e % 4096 == 2051
  }

  lemma WritableOwned(f: nat)
    ensures MapEntryIsOwned(f)
  {
    hide MapEntry;
    WritableEntry(f * PAGE_SIZE, true, true);
    EntryFlags(f * PAGE_SIZE, true, true);
  }

  lemma TakenIs(bs: seq<Span>, amount: nat)
    requires Fits(bs, amount)
    ensures Taken(bs, amount) == Block(Taken(bs, amount).start, Taken(bs, amount).start + amount)
  {}
}
