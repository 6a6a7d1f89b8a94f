/** kernel/memory/kmalloc.cpp: allocating, mapping and freeing ranges of pages, with the TLB
    shootdown that makes it safe for `mapPage` to flush nothing.

    Between any two page operations every TLB may load and drop translations (`TlbTraffic`). The
    mailboxes that carry the shootdown to other processors are in Shootdown.dfy. */
module Kmalloc {
  import opened Blocks
  import opened BlockMaps
  import opened Frames
  import opened PageTables
  import opened PageTree
  import opened Paging
  import opened Tlbs
  import opened PageRanges

  datatype Outcome = Pointer(address: nat) | Panic

  /** The state before a call: the abstract page map, memory, the frames free, in hand and lost, the
      number of physical blocks and the virtual table. */
  datatype Snapshot = Snapshot(pages: map<nat, nat>, mem: Memory, frames: set<nat>, held: set<nat>, lost: set<nat>,
                               blocks: nat, virtual: seq<Span>)

  class KernelMemory {
    const paging: PageMapper
    const virtualMemory: BlockMap
    const processorCount: nat
    ghost const window: nat
    ghost var tlbs: seq<Tlb>

    ghost function FreePages(): set<nat>
      requires virtualMemory.Valid()
      reads this, virtualMemory, virtualMemory.blocks
    {
      PagesOf(virtualMemory.Contents())
    }

    ghost function Now(): Snapshot
      requires virtualMemory.Valid() && paging.physicalMemory.Valid()
      reads this, paging, paging.physicalMemory, paging.physicalMemory.blocks, virtualMemory, virtualMemory.blocks
    {
      Snapshot(paging.pages, paging.mem, paging.Free(), paging.held, paging.lost, paging.physicalMemory.numBlocks,
               virtualMemory.Contents())
    }

    ghost predicate Base()
      reads this, paging, paging.physicalMemory, paging.physicalMemory.blocks, virtualMemory, virtualMemory.blocks
    {
      && virtualMemory != paging.physicalMemory && virtualMemory.blocks != paging.physicalMemory.blocks
      && paging.Valid() && virtualMemory.Valid() && Paged(virtualMemory.Contents())
      && 0 !in FreePages()
      && |tlbs| == processorCount
      && OwnedMapped(paging.tree, paging.pages)
    }

    /** Between calls: free virtual pages are unmapped and cached by no processor, and every
        cached translation agrees with the page tables. */
    ghost predicate Valid()
      reads this, paging, paging.physicalMemory, paging.physicalMemory.blocks, virtualMemory, virtualMemory.blocks
    {
      Base() && Clean(window, paging.pages, tlbs, FreePages()) && Fresh(window, paging.pages, tlbs, {})
    }

    constructor (pageMapper: PageMapper, heap: BlockMap, processors: nat, ghost top: nat)
      requires heap != pageMapper.physicalMemory && heap.blocks != pageMapper.physicalMemory.blocks
      requires pageMapper.Valid() && heap.Valid() && Paged(heap.Contents()) && 0 !in PagesOf(heap.Contents())
      requires OwnedMapped(pageMapper.tree, pageMapper.pages)
      requires forall p :: p in PagesOf(heap.Contents()) ==> InHeap(top, p) && Low(p) !in pageMapper.pages
      ensures Valid() && paging == pageMapper && virtualMemory == heap && processorCount == processors
    {
      paging := pageMapper;
      virtualMemory := heap;
      processorCount := processors;
      window := top;
      tlbs := seq(processors, _ => map[]);
    }

    /** Any number of TLB fills and evictions on any processors. */
    ghost method TlbTraffic(s: set<nat>, dirty: set<nat>)
      requires Clean(window, paging.pages, tlbs, s) && Fresh(window, paging.pages, tlbs, dirty)
      modifies this`tlbs
      ensures Traffic(paging.pages, old(tlbs), tlbs)
      ensures Clean(window, paging.pages, tlbs, s) && Fresh(window, paging.pages, tlbs, dirty)
    {
      assert Traffic(paging.pages, tlbs, tlbs);
      var after: seq<Tlb> :| Traffic(paging.pages, tlbs, after);
      TrafficKeeps(window, paging.pages, tlbs, after, s, dirty);
      tlbs := after;
    }

    /** As `Valid`, while the pages of `pending` are taken from the virtual map but not mapped. */
    ghost predicate Ready(pending: set<nat>)
      reads this, paging, paging.physicalMemory, paging.physicalMemory.blocks, virtualMemory, virtualMemory.blocks
    {
      && Base() && FreePages() !! pending
      && Clean(window, paging.pages, tlbs, FreePages() + pending) && Fresh(window, paging.pages, tlbs, {})
    }

    lemma ValidParts()
      requires Valid()
      ensures virtualMemory.Valid() && paging.physicalMemory.Valid()
      ensures Clean(window, paging.pages, tlbs, FreePages())
    {}

    lemma ReadyParts(pending: set<nat>)
      requires Ready(pending)
      ensures virtualMemory.Valid() && paging.physicalMemory.Valid()
      ensures pending == {} ==> Valid()
    {
      if pending == {} {
        assert FreePages() + pending == FreePages();
      }
    }

    lemma PendingInHeap(pending: set<nat>, p: nat)
      requires Ready(pending) && p in pending
      ensures InHeap(window, p)
    {}

    /** One `mapPage` of the pending page `p`, and the TLB traffic around it. */
    method MapOne(p: nat, physical: nat, owned: bool, cacheable: bool, ghost pending: set<nat>)
      requires Ready(pending) && p in pending
      requires |paging.Free()| >= Missing(paging.tree, PathOf(Low(p)))
      requires owned ==> physical / 4096 in paging.held
      modifies this`tlbs, paging, paging.physicalMemory.blocks
      ensures Ready(pending - {p})
      ensures virtualMemory.Contents() == old(virtualMemory.Contents())
      ensures paging.pages == old(paging.pages)[Low(p) := MapEntry(physical, WRITABLE, owned, cacheable)]
      ensures paging.held == old(paging.held) - if owned then {physical / 4096} else {}
      ensures paging.lost == old(paging.lost)
      ensures |paging.Free()| == old(|paging.Free()| - Missing(paging.tree, PathOf(Low(p))))
      ensures Missing(paging.tree, PathOf(Low(p))) == 0
      ensures KeptBut(PathOf(Low(p)), old(paging.mem), old(paging.tree), old(paging.Free()), paging.mem, paging.tree)
    {
      hide PathOf, PageOf, Missing, KeptBut, MapEntry, Clean, Fresh, Paged, PagesOf, TreeOk, Books, Abstracts, Low,
           Present, Allocated;
      ghost var n, e := Low(p), MapEntry(physical, WRITABLE, owned, cacheable);
      CleanPage(window, paging.pages, tlbs, FreePages() + pending, p);
      HeapPage(window, p);
      PagePath(n);
      WritableEntry(physical, owned, cacheable);
      MapKeeps(window, paging.pages, tlbs, FreePages() + pending, p, e);
      assert FreePages() + pending - {p} == FreePages() + (pending - {p});
      paging.MapPage(p * PAGE_SIZE, physical, WRITABLE, owned, cacheable);
      OwnedMappedKept(PathOf(n), old(paging.mem), old(paging.tree), old(paging.Free()), paging.mem, paging.tree,
                      old(paging.pages), n, e);
      TlbTraffic(FreePages() + (pending - {p}), {});
    }

    /** The range at `ptr` is the first fit in `virtual`, and was cut from it. */
    ghost predicate Takes(ptr: nat, amount: nat, virtual: seq<Span>)
      reads virtualMemory, virtualMemory.blocks
    {
      && virtualMemory.Valid() && Fits(virtual, amount)
      && ptr == Taken(virtual, amount).start && virtualMemory.Contents() == Cut(virtual, amount)
    }

    lemma TakesRange(ptr: nat, amount: nat, virtual: seq<Span>)
      requires Takes(ptr, amount, virtual)
      ensures Fits(virtual, amount) && Taken(virtual, amount) == Block(ptr, ptr + amount)
    {
      hide Fits, Taken;
      TakenIs(virtual, amount);
    }

    /** A page-aligned range of virtual pages, taken from the virtual map; 0 when none is found. */
    method TakeRange(amount: nat) returns (ptr: nat)
      requires Valid() && amount % PAGE_SIZE == 0
      modifies virtualMemory.blocks
      ensures ptr % PAGE_SIZE == 0
      ensures ptr == 0 ==> Valid() && FreePages() == old(FreePages())
      ensures ptr != 0 ==>
                && PagesIn(Block(ptr, ptr + amount)) <= old(FreePages())
                && virtualMemory.Valid() && FreePages() == old(FreePages()) - PagesIn(Block(ptr, ptr + amount))
                && Ready(PagesIn(Block(ptr, ptr + amount)))
                && Takes(ptr, amount, old(virtualMemory.Contents()))
      ensures ptr == 0 && amount > 0 ==> !old(Fits(virtualMemory.Contents(), amount))
    {
      hide Paged, PagesOf, TreeOk, Books, Abstracts, Fresh, Fits;
      ghost var before := virtualMemory.Contents();
      if Fits(before, amount) {
        CutPages(before, amount);
        TakenIs(before, amount);
        ghost var t := Taken(before, amount);
        assert FreePages() - PagesIn(t) + PagesIn(t) == FreePages();
        assert amount > 0 ==> t.start / PAGE_SIZE in PagesIn(t);
      }
      ptr := virtualMemory.Allocate(amount);
    }

    /** The page tables for `pending` all exist, or there are frames for those that do not and for
        `each` data frames for each of `count` pages. */
    ghost predicate EnoughFrames(pending: set<nat>, count: nat, each: nat)
      requires paging.physicalMemory.Valid()
      reads this, paging, paging.physicalMemory, paging.physicalMemory.blocks
    {
      var missing := MissingTables(paging.tree, pending);
      missing == {} || |paging.Free()| >= count * each + |missing|
    }

    /** `EnoughFrames` for the range that `allocate(total)` will take, if any. */
    ghost predicate FramesFor(total: nat, each: nat)
      requires Valid()
      reads this, paging, paging.physicalMemory, paging.physicalMemory.blocks, virtualMemory, virtualMemory.blocks
    {
      Fits(virtualMemory.Contents(), total) ==>
        EnoughFrames(PagesIn(Taken(virtualMemory.Contents(), total)), total / PAGE_SIZE, each)
    }

    /** One round of the loop of `allocateMemory`. */
    method AllocateOne(p: nat, ghost pending: set<nat>, ghost count: nat) returns (ok: bool)
      requires Ready(pending) && p in pending && count >= 1
      requires EnoughFrames(pending, count, 1)
      modifies this`tlbs, paging, paging.physicalMemory.blocks
      ensures ok ==> Ready(pending - {p})
      ensures virtualMemory.Valid() && virtualMemory.Contents() == old(virtualMemory.Contents())
      ensures paging.physicalMemory.Valid() && (!ok ==> paging.Free() == {})
      ensures ok ==> EnoughFrames(pending - {p}, count - 1, 1)
      ensures ok ==>
                && paging.held == old(paging.held) && paging.lost == old(paging.lost)
                && Filled(window, {p}, old(paging.pages), old(paging.mem), paging.pages, paging.mem)
    {
      hide PathOf, PageOf, KeptBut, Clean, Fresh, Paged, PagesOf, TreeOk, Books, Abstracts, Low, Missing,
           SameOutside, DataKept, MissingTables, MapEntry, Allocated;
      CleanPage(window, paging.pages, tlbs, FreePages() + pending, p);
      var frame := paging.TakeFrame();
      if frame == 0 {
        return false;
      }
      HeldOnce(paging.pool, old(paging.Free()), old(paging.held), paging.tree, paging.lost, paging.mem, frame);
      FreshMap(p, frame * PAGE_SIZE, true, true, pending, count, 1);
      return true;
    }

    /** `MapOne` within a page loop: what it keeps of the pages and of the memory. */
    method FreshMap(p: nat, physical: nat, owned: bool, cacheable: bool, ghost pending: set<nat>, ghost count: nat,
                    ghost each: nat)
      requires Ready(pending) && p in pending && count >= 1
      requires EnoughFrames(pending, count - 1, each)
      requires owned ==> physical / 4096 in paging.held
      modifies this`tlbs, paging, paging.physicalMemory.blocks
      ensures Ready(pending - {p}) && EnoughFrames(pending - {p}, count - 1, each)
      ensures virtualMemory.Contents() == old(virtualMemory.Contents())
      ensures paging.held == old(paging.held) - if owned then {physical / 4096} else {}
      ensures paging.lost == old(paging.lost)
      ensures SameOutside(window, old(paging.pages), paging.pages, {p})
      ensures DataKept(window, old(paging.pages), old(paging.mem), paging.mem, {p})
      ensures Low(p) in paging.pages && paging.pages[Low(p)] == MapEntry(physical, WRITABLE, owned, cacheable)
    {
      hide PathOf, PageOf, KeptBut, Clean, Fresh, Paged, PagesOf, TreeOk, Books, Abstracts, Low, Missing, MapEntry,
           SameOutside, DataKept, MissingTables;
      ghost var pages1, mem1, tree1, free1 := paging.pages, paging.mem, paging.tree, paging.Free();
      MissingPart(paging.tree, pending, p);
      CleanPage(window, paging.pages, tlbs, FreePages() + pending, p);
      LoopStart(window, paging.pages, paging.mem);
      MapOne(p, physical, owned, cacheable, pending);
      MissingLess(tree1, pending, p, mem1, free1, paging.mem, paging.tree);
      SameOutsideStep(window, pages1, pages1, paging.pages, {}, p);
      DataKeptStep(window, PathOf(Low(p)), free1, pages1, mem1, pages1, mem1, tree1, paging.mem, paging.tree, {},
                   paging.root, paging.pool, old(paging.held), old(paging.lost));
      assert {} + {p} == {p};
      DataKeptLess(window, pages1, mem1, paging.mem, p);
    }

    /** What a successful allocation of `total` bytes at `ptr` leaves: the first fit taken, its pages
        mapped and owned, everything else as it was. */
    ghost predicate Allocates(ptr: nat, total: nat, before: Snapshot)
      reads this, paging, paging.physicalMemory, paging.physicalMemory.blocks, virtualMemory, virtualMemory.blocks
    {
      var s, free := PagesIn(Block(ptr, ptr + total)), PagesOf(before.virtual);
      && Valid() && Takes(ptr, total, before.virtual) && s <= free && FreePages() == free - s
      && Filled(window, s, before.pages, before.mem, paging.pages, paging.mem)
      && paging.held == before.held && paging.lost == before.lost && paging.physicalMemory.numBlocks == before.blocks
    }

    /** One round of the loop: the page at `at` is next, those from `start` are done. */
    method FillPage(at: nat, ghost start: nat, ghost end: nat, ghost pages: map<nat, nat>, ghost mem: Memory)
      returns (ok: bool)
      requires start % PAGE_SIZE == 0 && at % PAGE_SIZE == 0 && end % PAGE_SIZE == 0 && start <= at < end
      requires Ready(PagesIn(Block(at, end)))
      requires EnoughFrames(PagesIn(Block(at, end)), (end - at) / PAGE_SIZE, 1)
      requires Filled(window, PagesIn(Block(start, at)), pages, mem, paging.pages, paging.mem)
      modifies this`tlbs, paging, paging.physicalMemory.blocks
      ensures virtualMemory.Valid() && virtualMemory.Contents() == old(virtualMemory.Contents())
      ensures paging.physicalMemory.Valid() && (!ok ==> paging.Free() == {})
      ensures ok ==>
                && at + PAGE_SIZE <= end && Ready(PagesIn(Block(at + PAGE_SIZE, end)))
                && EnoughFrames(PagesIn(Block(at + PAGE_SIZE, end)), (end - (at + PAGE_SIZE)) / PAGE_SIZE, 1)
                && Filled(window, PagesIn(Block(start, at + PAGE_SIZE)), pages, mem, paging.pages, paging.mem)
                && paging.held == old(paging.held) && paging.lost == old(paging.lost)
    {
      hide Ready, Valid, EnoughFrames, Filled, PagesIn, PagesOf, Base;
      ghost var pages1, mem1 := paging.pages, paging.mem;
      LoopPages(start, at, end);
      ok := AllocateOne(at / PAGE_SIZE, PagesIn(Block(at, end)), (end - at) / PAGE_SIZE);
      if ok {
        FilledStep(window, pages, mem, pages1, mem1, paging.pages, paging.mem, PagesIn(Block(start, at)),
                   at / PAGE_SIZE);
      }
    }

    /** The loop of `allocateMemory`: a frame behind every page of the range. */
    method FillRange(ptr: nat, total: nat) returns (ok: bool)
      requires ptr % PAGE_SIZE == 0 && total % PAGE_SIZE == 0
      requires Ready(PagesIn(Block(ptr, ptr + total)))
      requires EnoughFrames(PagesIn(Block(ptr, ptr + total)), total / PAGE_SIZE, 1)
      modifies this`tlbs, paging, paging.physicalMemory.blocks
      ensures virtualMemory.Valid() && virtualMemory.Contents() == old(virtualMemory.Contents())
      ensures paging.physicalMemory.Valid() && (!ok ==> paging.Free() == {})
      ensures ok ==>
                && Valid()
                && Filled(window, PagesIn(Block(ptr, ptr + total)), old(paging.pages), old(paging.mem), paging.pages,
                          paging.mem)
                && paging.held == old(paging.held) && paging.lost == old(paging.lost)
    {
      hide Ready, Valid, EnoughFrames, Filled, PagesIn, PagesOf, Base;
      ReadyParts(PagesIn(Block(ptr, ptr + total)));
      FilledStart(window, paging.pages, paging.mem);
      NoPages(ptr);
      var i := 0;
      while i < total
        invariant i <= total && i % PAGE_SIZE == 0
        invariant virtualMemory.Valid() && paging.physicalMemory.Valid()
        invariant Ready(PagesIn(Block(ptr + i, ptr + total)))
        invariant EnoughFrames(PagesIn(Block(ptr + i, ptr + total)), (total - i) / PAGE_SIZE, 1)
        invariant virtualMemory.Contents() == old(virtualMemory.Contents())
        invariant Filled(window, PagesIn(Block(ptr, ptr + i)), old(paging.pages), old(paging.mem), paging.pages,
                         paging.mem)
        invariant paging.held == old(paging.held) && paging.lost == old(paging.lost)
      {
        ok := FillPage(ptr + i, ptr, ptr + total, old(paging.pages), old(paging.mem));
        if !ok {
          return;
        }
        i := i + PAGE_SIZE;
      }
      NoPages(ptr + total);
      ReadyParts({});
      ok := true;
    }

    /** Memory for `size` bytes and a header, page by page; the null pointer when the virtual map
        has no room, a panic when the physical one has not. */
    method AllocateMemory(size: nat) returns (r: Outcome)
      requires Valid()
      requires FramesFor(PageAlignUp(size + 8), 1)
      modifies this`tlbs, paging, paging.physicalMemory.blocks, virtualMemory.blocks
      ensures r.Panic? ==> paging.physicalMemory.Valid() && paging.Free() == {}
      ensures r == Pointer(0) ==> Valid() && paging.pages == old(paging.pages) && FreePages() == old(FreePages())
      ensures r == Pointer(0) ==> !old(Fits(virtualMemory.Contents(), PageAlignUp(size + 8)))
      ensures r.Pointer? && r.address != 0 ==>
                && r.address % PAGE_SIZE == 0
                && Allocates(r.address, PageAlignUp(size + 8), old(Now()))
                && PagesIn(Block(r.address, r.address + PageAlignUp(size + 8))) == BytePages(r.address, size + 8)
    {
      hide Takes, Clean, Fresh, Paged, PagesOf, Filled, MissingTables, PagesIn, Fits, OwnedMapped, TreeOk, Books,
           Abstracts;
      var total := PageAlignUp(size + 8);
      var ptr := TakeRange(total);
      if ptr == 0 {
        return Pointer(0);
      }
      TakesRange(ptr, total, old(virtualMemory.Contents()));
      var ok := FillRange(ptr, total);
      if !ok {
        return Panic;
      }
      AlignedRange(ptr, size + 8);
      return Pointer(ptr);
    }

    /** One round of the loop of `mapAddress`: the page at offset `i` is next. */
    method MapNext(ptr: nat, i: nat, total: nat, physical: nat, cacheable: bool, ghost pages: map<nat, nat>,
                   ghost mem: Memory)
      requires ptr % PAGE_SIZE == 0 && i % PAGE_SIZE == 0 && total % PAGE_SIZE == 0 && i < total
      requires Ready(PagesIn(Block(ptr + i, ptr + total)))
      requires EnoughFrames(PagesIn(Block(ptr + i, ptr + total)), (total - i) / PAGE_SIZE, 0)
      requires MappedTo(window, PagesIn(Block(ptr, ptr + i)), ptr / PAGE_SIZE, physical, cacheable, pages, mem,
                        paging.pages, paging.mem)
      modifies this`tlbs, paging, paging.physicalMemory.blocks
      ensures i + PAGE_SIZE <= total && virtualMemory.Valid() && paging.physicalMemory.Valid()
      ensures Ready(PagesIn(Block(ptr + i + PAGE_SIZE, ptr + total)))
      ensures EnoughFrames(PagesIn(Block(ptr + i + PAGE_SIZE, ptr + total)), (total - (i + PAGE_SIZE)) / PAGE_SIZE, 0)
      ensures virtualMemory.Contents() == old(virtualMemory.Contents())
      ensures MappedTo(window, PagesIn(Block(ptr, ptr + i + PAGE_SIZE)), ptr / PAGE_SIZE, physical, cacheable, pages,
                       mem, paging.pages, paging.mem)
      ensures paging.held == old(paging.held) && paging.lost == old(paging.lost)
    {
      hide Ready, Valid, MappedTo, PagesIn, MapEntry, SameOutside, DataKept, Low, InHeap, MissingTables, PagesOf, Base;
      ghost var pages1, mem1, p := paging.pages, paging.mem, (ptr + i) / PAGE_SIZE;
      LoopPages(ptr, ptr + i, ptr + total);
      PageDistance(ptr, i);
      PendingInHeap(PagesIn(Block(ptr + i, ptr + total)), p);
      ReadyParts(PagesIn(Block(ptr + i, ptr + total)));
      FreshMap((ptr + i) / PAGE_SIZE, physical + i, false, cacheable, PagesIn(Block(ptr + i, ptr + total)),
               (total - i) / PAGE_SIZE, 0);
      ReadyParts(PagesIn(Block(ptr + i + PAGE_SIZE, ptr + total)));
      MappedStep(window, PagesIn(Block(ptr, ptr + i)), ptr / PAGE_SIZE, physical, cacheable,
                 pages, mem, pages1, mem1, paging.pages, paging.mem, p);
    }

    /** The loop of `mapAddress`. */
    method MapRange(ptr: nat, physical: nat, total: nat, cacheable: bool)
      requires ptr % PAGE_SIZE == 0 && total % PAGE_SIZE == 0
      requires Ready(PagesIn(Block(ptr, ptr + total)))
      requires EnoughFrames(PagesIn(Block(ptr, ptr + total)), total / PAGE_SIZE, 0)
      modifies this`tlbs, paging, paging.physicalMemory.blocks
      ensures Valid()
      ensures virtualMemory.Contents() == old(virtualMemory.Contents())
      ensures MappedTo(window, PagesIn(Block(ptr, ptr + total)), ptr / PAGE_SIZE, physical, cacheable,
                       old(paging.pages), old(paging.mem), paging.pages, paging.mem)
      ensures paging.held == old(paging.held) && paging.lost == old(paging.lost)
    {
      hide Ready, Valid, MappedTo, EnoughFrames, PagesIn, PagesOf, Base;
      ReadyParts(PagesIn(Block(ptr, ptr + total)));
      MappedStart(window, ptr / PAGE_SIZE, physical, cacheable, paging.pages, paging.mem);
      NoPages(ptr);
      var i := 0;
      while i < total
        invariant i <= total && i % PAGE_SIZE == 0
        invariant virtualMemory.Valid() && paging.physicalMemory.Valid()
        invariant Ready(PagesIn(Block(ptr + i, ptr + total)))
        invariant EnoughFrames(PagesIn(Block(ptr + i, ptr + total)), (total - i) / PAGE_SIZE, 0)
        invariant virtualMemory.Contents() == old(virtualMemory.Contents())
        invariant MappedTo(window, PagesIn(Block(ptr, ptr + i)), ptr / PAGE_SIZE, physical, cacheable,
                           old(paging.pages), old(paging.mem), paging.pages, paging.mem)
        invariant paging.held == old(paging.held) && paging.lost == old(paging.lost)
      {
        MapNext(ptr, i, total, physical, cacheable, old(paging.pages), old(paging.mem));
        i := i + PAGE_SIZE;
      }
      NoPages(ptr + total);
      ReadyParts({});
    }

    /** Maps a physical range; the result keeps the offset in the page. The null pointer when the
        virtual map has no room. */
    method MapAddress(physicalAddress: nat, size: nat, cacheable: bool) returns (address: nat)
      requires Valid()
      requires FramesFor(Spanned(physicalAddress, size), 0)
      modifies this`tlbs, paging, paging.physicalMemory.blocks, virtualMemory.blocks
      ensures Valid()
      ensures paging.held == old(paging.held) && paging.lost == old(paging.lost)
      ensures address == 0 ==> paging.pages == old(paging.pages) && FreePages() == old(FreePages())
      ensures address == 0 && size > 0 ==> !old(Fits(virtualMemory.Contents(), Spanned(physicalAddress, size)))
      ensures address != 0 ==>
                && address % PAGE_SIZE == physicalAddress % PAGE_SIZE
                && var s := PagesIn(Touched(address, size));
                   && s <= old(FreePages()) && FreePages() == old(FreePages()) - s
                   && Takes(Touched(address, size).start, Spanned(physicalAddress, size), old(virtualMemory.Contents()))
                   && MappedTo(window, s, address / PAGE_SIZE, PageAlignDown(physicalAddress), cacheable,
                               old(paging.pages), old(paging.mem), paging.pages, paging.mem)
                   && FlaggedPages(paging.pages, s, if cacheable then 3 else 19)
                   && (size > 0 ==> s == BytePages(address, size))
      ensures address != 0 && physicalAddress + size <= FRAMES * PAGE_SIZE ==>
                TranslatesAll(paging.pages, address, physicalAddress, size)
    {
      hide TranslatesAll, FlaggedPages, BytePages, Takes, Clean, Fresh, Paged, PagesOf, MappedTo, MissingTables,
           PagesIn, OwnedMapped, TreeOk,
           Books, Abstracts, Fits;
      var pageOffset := physicalAddress % PAGE_SIZE;
      var physicalEnd := PageAlignUp(physicalAddress + size);
      var physicalStart := PageAlignDown(physicalAddress);
      Spans(physicalAddress, size);
      var total := physicalEnd - physicalStart;
      var ptr := TakeRange(total);
      if ptr == 0 {
        return 0;
      }
      TakesRange(ptr, total, old(virtualMemory.Contents()));
      SameSpan(physicalAddress, ptr, size);
      MapRange(ptr, physicalStart, total, cacheable);
      address := ptr + pageOffset;
      TouchedIs(address, size);
      MappedFlags(window, PagesIn(Touched(address, size)), address / PAGE_SIZE, physicalStart, cacheable,
                  old(paging.pages), old(paging.mem), paging.pages, paging.mem);
      if physicalAddress + size <= FRAMES * PAGE_SIZE {
        AllBytes(window, paging.pages, physicalAddress, address, size, cacheable, old(paging.pages), old(paging.mem),
                 paging.mem);
      }
    }

    /** While `unmapMemory` runs: the pages of `dirty` are unmapped but may still be cached by
        processors from `done` on. */
    ghost predicate Unmapping(dirty: set<nat>, done: nat, self: nat)
      reads this, paging, paging.physicalMemory, paging.physicalMemory.blocks, virtualMemory, virtualMemory.blocks
    {
      && Base() && self < processorCount
      && Clean(window, paging.pages, tlbs, FreePages()) && Fresh(window, paging.pages, tlbs, dirty)
      && ShotUpTo(window, paging.pages, tlbs, dirty, done, self)
    }

    /** TLB fills and evictions during an unmap. */
    ghost method UnmapTraffic(dirty: set<nat>, done: nat, self: nat)
      requires Unmapping(dirty, done, self)
      modifies this`tlbs
      ensures Unmapping(dirty, done, self)
      ensures Traffic(paging.pages, old(tlbs), tlbs)
    {
      hide Clean, Fresh, Paged, PagesOf, TreeOk, Books, Abstracts, OwnedMapped, ShotUpTo, Traffic;
      TlbTraffic(FreePages(), dirty);
      TrafficKeepsShot(window, paging.pages, old(tlbs), tlbs, dirty, done, self);
    }

    /** `invalidateTlb` on one processor. */
    ghost method Invlpg(c: nat, n: nat, dirty: set<nat>, done: nat, self: nat)
      requires Unmapping(dirty, done, self) && c < processorCount
      modifies this`tlbs
      ensures Unmapping(dirty, done, self)
      ensures tlbs == Invalidated(old(tlbs), c, n)
    {
      hide Clean, Fresh, Paged, PagesOf, TreeOk, Books, Abstracts, OwnedMapped, ShotUpTo, Invalidated;
      InvalidateKeeps(window, paging.pages, tlbs, c, n, FreePages(), dirty);
      InvalidateKeepsShot(window, paging.pages, tlbs, c, n, dirty, done, self);
      InvalidatedLength(tlbs, c, n);
      tlbs := Invalidated(tlbs, c, n);
    }

    lemma AbsentUnmapped(n: nat)
      requires paging.Valid() && n < PAGES && PathOf(n)[0] != 511
      ensures Parent(PathOf(n)) !in paging.tree ==> n !in paging.pages
    {
      if Parent(PathOf(n)) !in paging.tree {
        paging.Absent(n);
      }
    }

    /** `unmapPage` of page `p`: its entry is cleared, its frame given back, and it is invalidated
        here; other processors may still cache it. */
    method UnmapOne(p: nat, ghost dirty: set<nat>, ghost self: nat)
      requires Unmapping(dirty, 0, self) && InHeap(window, p)
      modifies this`tlbs, paging, paging.physicalMemory, paging.physicalMemory.blocks
      ensures Unmapping(dirty + {p}, 0, self)
      ensures virtualMemory.Contents() == old(virtualMemory.Contents())
      ensures paging.held == old(paging.held)
      ensures NoneLost(old(paging.physicalMemory.numBlocks), old(paging.lost), paging.physicalMemory.numBlocks,
                       paging.lost, 1)
      ensures Emptied(window, {p}, old(paging.pages), old(paging.mem), old(paging.Free() + paging.lost),
                      paging.pages, paging.mem, paging.Free() + paging.lost)
    {
      hide PathOf, PageOf, KeptBut, Clean, Fresh, Paged, PagesOf, TreeOk, Books, Abstracts, Low, OwnedMapped, InHeap,
           SameOutside, DataKept, Traffic, ShotUpTo, Invalidated, FrameOf, FramesBack, Full;
      ghost var n := Low(p);
      FrameBack(paging.mem, paging.root, paging.tree, paging.pages, p, paging.Free() + paging.lost);
      ghost var pages1, mem1, tree1, free1, tlbs1 := paging.pages, paging.mem, paging.tree, paging.Free(), tlbs;
      HeapPage(window, p);
      HeapIsOutside(window, p);
      AbsentUnmapped(n);
      UnmapKeeps(window, pages1, tlbs1, FreePages(), dirty, p);
      OwnedMappedLess(tree1, pages1, n);
      LoopStart(window, pages1, mem1);
      var cleared := paging.UnmapPage(p * PAGE_SIZE);
      FullMeans(old(paging.physicalMemory.Contents()));
      assert paging.Free() + paging.lost == free1 + old(paging.lost) + FrameOf(tree1, PathOf(n));
      SameOutsideStep(window, pages1, pages1, paging.pages, {}, p);
      DataKeptStep(window, PathOf(n), free1, pages1, mem1, pages1, mem1, tree1, paging.mem, paging.tree, {},
                   paging.root, paging.pool, old(paging.held), old(paging.lost));
      DataKeptLess(window, pages1, mem1, paging.mem, p);
      assert {} + {p} == {p};
      TlbTraffic(FreePages(), dirty + {p});
      if cleared {
        InvalidateKeeps(window, paging.pages, tlbs, self, n, FreePages(), dirty + {p});
        UnmapShoots(window, pages1, tlbs1, tlbs, dirty, p, self);
        InvalidatedLength(tlbs, self, n);
        tlbs := Invalidated(tlbs, self, n);
      } else {
        AbsentIsShot(window, pages1, tlbs1, tlbs, dirty, p, self);
      }
    }

    /** The first loop of `unmapMemory`. */
    method UnmapRange(start: nat, size: nat, ghost self: nat)
      requires start % PAGE_SIZE == 0 && size % PAGE_SIZE == 0
      requires Valid() && self < processorCount
      requires forall p :: p in PagesIn(Block(start, start + size)) ==> InHeap(window, p)
      modifies this`tlbs, paging, paging.physicalMemory, paging.physicalMemory.blocks
      ensures Unmapping(PagesIn(Block(start, start + size)), 0, self)
      ensures virtualMemory.Contents() == old(virtualMemory.Contents())
      ensures paging.held == old(paging.held)
      ensures NoneLost(old(paging.physicalMemory.numBlocks), old(paging.lost), paging.physicalMemory.numBlocks,
                       paging.lost,
                       size / PAGE_SIZE)
      ensures Emptied(window, PagesIn(Block(start, start + size)), old(paging.pages), old(paging.mem),
                      old(paging.Free() + paging.lost), paging.pages, paging.mem, paging.Free() + paging.lost)
    {
      hide Clean, Fresh, Paged, PagesOf, TreeOk, Books, Abstracts, OwnedMapped, InHeap, ShotUpTo, Emptied, PagesIn;
      EmptiedStart(window, paging.pages, paging.mem, paging.Free() + paging.lost);
      NothingShot(window, paging.pages, tlbs, self);
      NoPages(start);
      var i := 0;
      while i < size
        invariant i <= size && i % PAGE_SIZE == 0
        invariant Unmapping(PagesIn(Block(start, start + i)), 0, self)
        invariant virtualMemory.Contents() == old(virtualMemory.Contents())
        invariant paging.held == old(paging.held)
        invariant NoneLost(old(paging.physicalMemory.numBlocks), old(paging.lost), paging.physicalMemory.numBlocks,
                           paging.lost, i / PAGE_SIZE)
        invariant Emptied(window, PagesIn(Block(start, start + i)), old(paging.pages), old(paging.mem),
                          old(paging.Free() + paging.lost), paging.pages, paging.mem, paging.Free() + paging.lost)
      {
        ghost var pages1, mem1, gone1 := paging.pages, paging.mem, paging.Free() + paging.lost;
        ghost var blocks1, lost1 := paging.physicalMemory.numBlocks, paging.lost;
        LoopPages(start, start + i, start + size);
        InRange(start, start + i, start + size);
        UnmapOne((start + i) / PAGE_SIZE, PagesIn(Block(start, start + i)), self);
        EmptiedStep(window, PagesIn(Block(start, start + i)), (start + i) / PAGE_SIZE,
                    old(paging.pages), old(paging.mem), old(paging.Free() + paging.lost),
                    pages1, mem1, gone1, paging.pages, paging.mem, paging.Free() + paging.lost);
        NoneLostStep(old(paging.physicalMemory.numBlocks), old(paging.lost), blocks1, lost1,
                     paging.physicalMemory.numBlocks, paging.lost, i / PAGE_SIZE);
        i := i + PAGE_SIZE;
      }
    }

    /** The callback of the shootdown, as it runs on processor `c`. */
    method InvalidateRange(ghost c: nat, start: nat, size: nat, ghost self: nat)
      requires start % PAGE_SIZE == 0 && size % PAGE_SIZE == 0 && c < processorCount
      requires Unmapping(PagesIn(Block(start, start + size)), c, self)
      modifies this`tlbs
      ensures Unmapping(PagesIn(Block(start, start + size)), c + 1, self)
    {
      hide Clean, Fresh, Paged, PagesOf, TreeOk, Books, Abstracts, OwnedMapped, InHeap, ShotUpTo, PagesIn, Invalidated,
           Traffic, Low;
      ghost var s := PagesIn(Block(start, start + size));
      NoPages(start);
      var offset := 0;
      while offset < size
        invariant offset <= size && offset % PAGE_SIZE == 0
        invariant Unmapping(s, c, self)
        invariant GoneFrom(tlbs, c, PagesIn(Block(start, start + offset)))
      {
        ghost var p := (start + offset) / PAGE_SIZE;
        ghost var tlbs1 := tlbs;
        LoopPages(start, start + offset, start + size);
        InRange(start, start + offset, start + size);
        UnmapTraffic(s, c, self);
        ghost var tlbs2 := tlbs;
        Invlpg(c, Low(p), s, c, self);
        SubRange(start, start + offset + PAGE_SIZE, start + size);
        GoneStep(window, paging.pages, tlbs1, tlbs2, c, PagesIn(Block(start, start + offset)), p, s, self);
        offset := offset + PAGE_SIZE;
      }
      AllGone(window, paging.pages, tlbs, s, c, self);
    }

    /** The shootdown loop: every other processor invalidates the range, one after another. */
    method Shootdown(start: nat, size: nat, self: nat)
      requires start % PAGE_SIZE == 0 && size % PAGE_SIZE == 0
      requires Unmapping(PagesIn(Block(start, start + size)), 0, self)
      modifies this`tlbs
      ensures Unmapping(PagesIn(Block(start, start + size)), processorCount, self)
    {
      hide Clean, Fresh, Paged, PagesOf, TreeOk, Books, Abstracts, OwnedMapped, InHeap, ShotUpTo, PagesIn, Traffic, Low;
      var i := 0;
      while i < processorCount
        invariant i <= processorCount
        invariant Unmapping(PagesIn(Block(start, start + size)), i, self)
      {
        if i != self {
          InvalidateRange(i, start, size, self);
        } else {
          SelfIsShot(window, paging.pages, tlbs, PagesIn(Block(start, start + size)), i);
        }
        i := i + 1;
      }
    }

    /** What `unmapMemory` leaves of the pages of `b`: unmapped, cached nowhere, their
        frames given back, and free again unless the full virtual map dropped them. */
    ghost predicate Unmaps(b: Span, before: Snapshot)
      reads this, paging, paging.physicalMemory, paging.physicalMemory.blocks, virtualMemory, virtualMemory.blocks
    {
      var s := PagesIn(b);
      && Valid()
      && Clean(window, paging.pages, tlbs, s)
      && Emptied(window, s, before.pages, before.mem, before.frames + before.lost,
                 paging.pages, paging.mem, paging.Free() + paging.lost)
      && paging.held == before.held
      && NoneLost(before.blocks, before.lost, paging.physicalMemory.numBlocks, paging.lost, Capacity(b) / PAGE_SIZE)
      && FreePages() == PagesOf(before.virtual) + if Full(before.virtual) then {} else s
    }

    /** Unmaps every page the range touches, shoots it down on every processor, and only then
        gives the range back. Panics on the null pointer. */
    method UnmapMemory(address: nat, size: nat, self: nat) returns (panicked: bool)
      requires Valid() && self < processorCount
      requires address != 0 ==> Held(PagesIn(Touched(address, size)))
      modifies this`tlbs, paging, paging.physicalMemory, paging.physicalMemory.blocks, virtualMemory,
               virtualMemory.blocks
      ensures panicked <==> address == 0
      ensures !panicked ==>
                Unmaps(Touched(address, size), old(Now()))
      ensures size > 0 ==> PagesIn(Touched(address, size)) == BytePages(address, size)
    {
      hide Valid, Unmaps, PagesIn, BytePages, Held, Base;
      TouchedIs(address, size);
      if address == 0 {
        return true;
      }
      Spans(address, size);
      var start := PageAlignDown(address);
      var total := PageAlignUp(address + size) - start;
      UnmapPages(start, total, self);
      return false;
    }

    method UnmapPages(start: nat, total: nat, self: nat)
      requires start % PAGE_SIZE == 0 && total % PAGE_SIZE == 0
      requires Valid() && self < processorCount && Held(PagesIn(Block(start, start + total)))
      modifies this`tlbs, paging, paging.physicalMemory, paging.physicalMemory.blocks, virtualMemory,
               virtualMemory.blocks
      ensures Unmaps(Block(start, start + total), old(Now()))
    {
      hide Clean, Fresh, Paged, PagesOf, TreeOk, Books, Abstracts, OwnedMapped, InHeap, ShotUpTo, PagesIn, Emptied,
           Full, NoneLost;
      UnmapRange(start, total, self);
      Shootdown(start, total, self);
      GiveBack(start, total, self);
    }

    /** The pages of `s` are heap pages that are not free: the caller holds them. */
    ghost predicate Held(s: set<nat>)
      requires virtualMemory.Valid()
      reads this, virtualMemory, virtualMemory.blocks
    {
      s !! FreePages() && forall p :: p in s ==> InHeap(window, p)
    }

    /** `virtualMemory.returnMemory` at the end of `unmapMemory`. */
    method GiveBack(start: nat, total: nat, ghost self: nat)
      requires start % PAGE_SIZE == 0 && total % PAGE_SIZE == 0
      requires Unmapping(PagesIn(Block(start, start + total)), processorCount, self)
      requires Held(PagesIn(Block(start, start + total)))
      modifies virtualMemory, virtualMemory.blocks
      ensures Valid() && Clean(window, paging.pages, tlbs, PagesIn(Block(start, start + total)))
      ensures var back := PagesIn(Block(start, start + total));
              FreePages() == old(FreePages()) + if old(Full(virtualMemory.Contents())) then {} else back
    {
      hide Fresh, Paged, PagesOf, TreeOk, Books, Abstracts, OwnedMapped, PagesIn, Full, Drops, Added, ShotUpTo;
      ghost var b: Span := Block(start, start + total);
      ghost var bs := virtualMemory.Contents();
      AddedPages(bs, b);
      if total > 0 {
        FullDrops(bs, b);
      } else {
        NoPages(start);
      }
      ShotDown(window, paging.pages, tlbs, PagesIn(b), self);
      virtualMemory.ReturnMemory(start, total);
    }

    /** `mapAddress` and `unmapMemory` of the same size: every page is back as it was. */
    method MapThenUnmap(physicalAddress: nat, size: nat, cacheable: bool, self: nat) returns (address: nat)
      requires Valid() && self < processorCount
      requires FramesFor(Spanned(physicalAddress, size), 0)
      modifies this`tlbs, paging, paging.physicalMemory, paging.physicalMemory.blocks, virtualMemory,
               virtualMemory.blocks
      ensures Valid() && paging.pages == old(paging.pages)
      ensures address == 0 ==> FreePages() == old(FreePages())
      ensures address != 0 ==>
                && old(Fits(virtualMemory.Contents(), Spanned(physicalAddress, size)))
                && FreePages() == old(FreePages())
                   - if old(Full(Cut(virtualMemory.Contents(), Spanned(physicalAddress, size))))
                     then PagesIn(Touched(address, size)) else {}
    {
      hide PagesIn, PagesOf, Clean, Base, Fresh, Full, FramesFor, SameOutside, Linear, DataKept, Held, FramesBack,
           Spanned;
      address := MapAddress(physicalAddress, size, cacheable);
      if address != 0 {
        Spans(address, size);
        ghost var s := PagesIn(Touched(address, size));
        ghost var pages1 := paging.pages;
        CleanLess(window, old(paging.pages), old(tlbs), old(FreePages()), s);
        MappedHeld(s, old(paging.pages), old(tlbs));
        var panicked := UnmapMemory(address, size, self);
        UndoneMapping(window, old(paging.pages), old(tlbs), pages1, paging.pages, tlbs, s);
      }
    }

    lemma MappedHeld(s: set<nat>, pages: map<nat, nat>, caches: seq<Tlb>)
      requires virtualMemory.Valid() && Clean(window, pages, caches, s) && s !! FreePages()
      ensures Held(s)
    {}

    /** The word at `address` holds `size`. */
    ghost predicate Header(address: nat, size: nat)
      reads paging
    {
      Accessible(paging.mem, paging.root, address) && paging.Word(address) == size
    }

    /** Memory with the size in a header word before it. */
    method Kmalloc(size: nat) returns (r: Outcome)
      requires Valid()
      requires FramesFor(PageAlignUp(size + 8), 1)
      modifies this`tlbs, paging, paging.physicalMemory.blocks, virtualMemory.blocks
      ensures r.Panic? ==> paging.physicalMemory.Valid() && paging.Free() == {}
      ensures r == Pointer(0) ==> Valid() && paging.pages == old(paging.pages) && FreePages() == old(FreePages())
      ensures r == Pointer(0) ==> !old(Fits(virtualMemory.Contents(), PageAlignUp(size + 8)))
      ensures r.Pointer? && r.address != 0 ==>
                && r.address % PAGE_SIZE == 8
                && Allocates(r.address - 8, PageAlignUp(size + 8), old(Now()))
                && PagesIn(Block(r.address - 8, r.address - 8 + PageAlignUp(size + 8)))
                   == BytePages(r.address - 8, size + 8)
                && Header(r.address - 8, size)
    {
      hide Fits, FramesFor, PagesIn, PagesOf, BytePages, Allocates, Header, Base, Valid;
      ValidParts();
      r := AllocateMemory(size);
      if r == Panic || r.address == 0 {
        return;
      }
      WholePage(size);
      WriteHeader(r.address, size, PageAlignUp(size + 8), old(Now()));
      HeaderOffset(r.address);
      return Pointer(r.address + 8);
    }

    /** `*headerPtr = {.size = size}`: the size goes into the first word of the new pages. */
    method WriteHeader(ptr: nat, size: nat, ghost total: nat, ghost before: Snapshot)
      requires ptr % PAGE_SIZE == 0 && total >= PAGE_SIZE && Allocates(ptr, total, before)
      modifies paging`mem
      ensures Allocates(ptr, total, before)
      ensures Header(ptr, size)
    {
      hide Clean, Fresh, Paged, PagesOf, TreeOk, Books, Abstracts, OwnedMapped, Filled, PagesIn, Accessible, Low,
           PageOf,
           Allocated, InHeap, WriteWord;
      ghost var s, p := PagesIn(Block(ptr, ptr + total)), ptr / PAGE_SIZE;
      assert p * PAGE_SIZE == ptr;
      FirstIn(ptr, total);
      OwnedAt(window, s, before.pages, before.mem, paging.pages, paging.mem, p);
      HeapPage(window, p);
      HeaderKeeps(window, s, before.pages, before.mem, paging.pages, paging.mem, paging.root, paging.tree, p,
                  ptr % 4096 / 8, size);
      paging.StoreWord(ptr, size);
    }

    /** Reads the header and frees. Panics on the null pointer, and where the header would be at 0. */
    method Kfree(ptr: nat, self: nat) returns (panicked: bool)
      requires Valid() && self < processorCount
      requires ptr != 0 ==> ptr >= 8 && Accessible(paging.mem, paging.root, ptr - 8)
      requires ptr > 8 ==> Held(PagesIn(Touched(ptr - 8, paging.Word(ptr - 8))))
      modifies this`tlbs, paging, paging.physicalMemory, paging.physicalMemory.blocks, virtualMemory,
               virtualMemory.blocks
      ensures panicked <==> ptr == 0 || ptr == 8
      ensures !panicked ==>
                Unmaps(Touched(ptr - 8, old(paging.Word(ptr - 8))), old(Now()))
    {
      hide Valid, Unmaps, PagesIn, Held, Base, Accessible;
      if ptr == 0 {
        return true;
      }
      var size := paging.Word(ptr - 8);
      panicked := UnmapMemory(ptr - 8, size, self);
    }

    /** After `kmalloc` and `kfree` with the header at `base`: page tables, caches and the virtual
        map are back where they were, except for the leaked page, which stays mapped and is not
        free - or for all pages taken, when the full virtual map dropped the range. */
    ghost predicate RoundTrip(base: nat, size: nat, before: Snapshot)
      reads this, paging, paging.physicalMemory, paging.physicalMemory.blocks, virtualMemory, virtualMemory.blocks
    {
      var total, free := PageAlignUp(size + 8), PagesOf(before.virtual);
      var taken := PagesIn(Block(base, base + total));
      && Valid()
      && Fits(before.virtual, total) && base == Taken(before.virtual, total).start
      && Leaked(base, size) <= free
      && SameOutside(window, before.pages, paging.pages, Leaked(base, size))
      && OwnedPages(window, paging.pages, Leaked(base, size))
      && FreePages() == free - (if Full(Cut(before.virtual, total)) then taken else Leaked(base, size))
      && paging.held == before.held
      && (before.blocks + total / PAGE_SIZE <= BLOCKMAP_SIZE ==> paging.lost == before.lost)
    }

    method KmallocThenKfree(size: nat, self: nat) returns (r: Outcome)
      requires Valid() && self < processorCount
      requires FramesFor(PageAlignUp(size + 8), 1)
      modifies this`tlbs, paging, paging.physicalMemory, paging.physicalMemory.blocks, virtualMemory,
               virtualMemory.blocks
      ensures r == Pointer(0) ==> Valid() && paging.pages == old(paging.pages) && FreePages() == old(FreePages())
      ensures r.Pointer? && r.address != 0 ==>
                r.address >= 8 && RoundTrip(r.address - 8, size, old(Now()))
    {
      hide Fits, FramesFor, PagesIn, PagesOf, Clean, Base, Valid, Header, Leaked, Allocates, RoundTrip, PageAlignUp;
      ValidParts();
      r := Kmalloc(size);
      if r.Panic? || r.address == 0 {
        return;
      }
      HeaderBase(r.address);
      FreeAgain(r.address, size, self, old(tlbs), old(Now()));
    }

    method FreeAgain(address: nat, size: nat, self: nat, ghost caches: seq<Tlb>, ghost before: Snapshot)
      requires address >= 8 && address % PAGE_SIZE == 8 && self < processorCount && Header(address - 8, size)
      requires Allocates(address - 8, PageAlignUp(size + 8), before)
      requires Clean(window, before.pages, caches, PagesOf(before.virtual))
      modifies this`tlbs, paging, paging.physicalMemory, paging.physicalMemory.blocks, virtualMemory,
               virtualMemory.blocks
      ensures RoundTrip(address - 8, size, before)
    {
      hide PagesIn, PagesOf, Clean, Base, Valid, Full, Header, SameOutside, OwnedPages, Leaked, Unmaps, RoundTrip,
           PageAlignUp, PageAlignDown, Allocates, Held, Takes;
      ghost var base := address - 8;
      HeaderBase(address);
      Spans(base, size);
      HeaderParts(base, size);
      HeldPart(base, size, before);
      ghost var middle := Now();
      var panicked := Kfree(address, self);
      BackAgain(base, size, PagesIn(Block(base, base + PageAlignUp(size + 8))), before, middle, caches);
    }

    /** What allocating left, as far as freeing needs it. */
    ghost predicate Middle(base: nat, size: nat, before: Snapshot, middle: Snapshot)
    {
      var total := PageAlignUp(size + 8);
      var taken, free := PagesIn(Block(base, base + total)), PagesOf(before.virtual);
      && base <= PageAlignUp(base + size) <= base + total
      && var freed := PagesIn(Block(base, PageAlignUp(base + size)));
      && freed <= taken <= free && taken - freed == Leaked(base, size)
      && Fits(before.virtual, total) && base == Taken(before.virtual, total).start
      && middle.virtual == Cut(before.virtual, total) && PagesOf(middle.virtual) == free - taken
      && SameOutside(window, before.pages, middle.pages, taken) && OwnedPages(window, middle.pages, taken)
      && middle.held == before.held && middle.lost == before.lost && middle.blocks == before.blocks
    }

    /** Of the pages just allocated the caller holds those that `kfree` will give back. */
    lemma HeldPart(base: nat, size: nat, before: Snapshot)
      requires base % PAGE_SIZE == 0 && base <= PageAlignUp(base + size)
      requires Allocates(base, PageAlignUp(size + 8), before)
      ensures Valid() && virtualMemory.Valid() && paging.physicalMemory.Valid()
      ensures base > 0 && PageAlignDown(base) == base
      ensures Held(PagesIn(Block(base, PageAlignUp(base + size))))
      ensures Middle(base, size, before, Now())
    {
      hide PagesIn, PagesOf, Clean, Base, Fresh, SameOutside, OwnedPages, Leaked, Filled, InHeap, PageAlignUp;
      LeakedIs(base, size);
      WholePage(size);
      FirstIn(base, PageAlignUp(size + 8));
      ValidParts();
      KfreeRange(base, size);
      FilledInHeap(window, PagesIn(Block(base, base + PageAlignUp(size + 8))), before.pages, before.mem, paging.pages,
                   paging.mem);
    }

    lemma BackAgain(base: nat, size: nat, taken: set<nat>, before: Snapshot, middle: Snapshot, caches: seq<Tlb>)
      requires Middle(base, size, before, middle) && taken == PagesIn(Block(base, base + PageAlignUp(size + 8)))
      requires Unmaps(Block(base, PageAlignUp(base + size)), middle)
      requires Clean(window, before.pages, caches, PagesOf(before.virtual))
      ensures RoundTrip(base, size, before)
    {
      hide PagesIn, PagesOf, Clean, Base, SameOutside, OwnedPages, Leaked, Emptied, Fresh, Full, PageAlignUp;
      ValidParts();
      var freed := PagesIn(Block(base, PageAlignUp(base + size)));
      Restored(window, PagesOf(before.virtual), before.pages, caches, middle.pages, middle.mem, paging.pages,
               paging.mem, tlbs,
               taken, freed, middle.frames + middle.lost, paging.Free() + paging.lost);
    }

    lemma HeaderParts(address: nat, size: nat)
      requires Header(address, size)
      ensures Accessible(paging.mem, paging.root, address) && paging.Word(address) == size
    {}
  }
}
