/** kernel/include/mykonos/physicalMemory.h: single frames out of the physical block map. */
module PhysicalMemory {
  import opened Blocks
  import opened BlockMaps
  import opened Frames

  /** Frame 0 stands for "none left". */
  method AllocateFrame(physical: BlockMap) returns (frame: nat)
    requires physical.Valid() && Paged(physical.Contents())
    modifies physical.blocks
    ensures physical.Valid() && Paged(physical.Contents())
    ensures old(PagesOf(physical.Contents())) == {} ==>
              frame == 0 && physical.Contents() == old(physical.Contents())
    ensures old(PagesOf(physical.Contents())) != {} ==>
              && frame in old(PagesOf(physical.Contents()))
              && PagesOf(physical.Contents()) == old(PagesOf(physical.Contents())) - {frame}
  {
    ghost var before := physical.Contents();
    OnePageFits(before);
    if Fits(before, PAGE_SIZE) {
      CutPages(before, PAGE_SIZE);
      SinglePage(Taken(before, PAGE_SIZE).start / PAGE_SIZE);
    }
    var address := physical.Allocate(PAGE_SIZE);
    frame := address / PAGE_SIZE;
  }

  /** The frame becomes free again, unless the full block map drops it. */
  method ReturnFrame(physical: BlockMap, frame: nat)
    requires physical.Valid() && Paged(physical.Contents())
    requires frame !in PagesOf(physical.Contents())
    modifies physical, physical.blocks
    ensures physical.Valid() && Paged(physical.Contents())
    ensures PagesOf(physical.Contents())
            == old(PagesOf(physical.Contents())) + if old(Full(physical.Contents())) then {} else {frame}
    ensures |physical.Contents()| <= old(|physical.Contents()|) + 1
  {
    hide Paged, PagesOf, Drops, Added, Full;
    SinglePage(frame);
    FullDrops(physical.Contents(), Block(frame * PAGE_SIZE, frame * PAGE_SIZE + PAGE_SIZE));
    AddedPages(physical.Contents(), Block(frame * PAGE_SIZE, frame * PAGE_SIZE + PAGE_SIZE));
    physical.ReturnMemory(frame * PAGE_SIZE, PAGE_SIZE);
  }
}
