/** Whole pages in a block table: the rounding of
    kernel/arch/x86_64/include/mykonos/pageConstants.h and the frames a page-aligned
    table holds (kernel/include/mykonos/physicalMemory.h). */
module Frames {
  import opened Blocks

  const PAGE_SIZE: nat := 4096

  /** The least multiple of the page size that is not below `x`. */
  function PageAlignUp(x: nat): (r: nat)
    ensures x <= r < x + 4096 && r % 4096 == 0
  {
    (x + 4095) / 4096 * 4096
  }

  /** The greatest multiple of the page size that is not above `x`. */
  function PageAlignDown(x: nat): (r: nat)
    ensures r <= x < r + 4096 && r % 4096 == 0
  {
    x / 4096 * 4096
  }

  predicate Aligned(b: Span) {
    b.start % PAGE_SIZE == 0 && b.end % PAGE_SIZE == 0
  }

  ghost predicate AllAligned(bs: seq<Span>) {
    forall k :: 0 <= k < |bs| ==> Aligned(bs[k])
  }

  predicate Within(lo: nat, f: nat, hi: nat) {
    lo <= f < hi
  }

  /** The pages of one block. */
  function PagesIn(b: Span): set<nat> {
    var hi := b.end / PAGE_SIZE;
    set f: nat | f < hi && Within(b.start / PAGE_SIZE, f, hi)
  }

  /** The pages of a whole table. */
  function PagesOf(bs: seq<Span>): set<nat> {
    if bs == [] then {} else PagesOf(bs[..|bs| - 1]) + PagesIn(bs[|bs| - 1])
  }

  /** A table that can be read page by page: aligned, and no address twice. */
  ghost predicate Paged(bs: seq<Span>) {
    |bs| <= BLOCKMAP_SIZE && AllAligned(bs) && Disjoint(bs)
  }

  lemma HitOfPage(b: Span, a: nat)
    requires Aligned(b)
    ensures Covers(b, a) <==> a / PAGE_SIZE in PagesIn(b)
  {}

  lemma {:induction false} CoverOfPage(bs: seq<Span>, a: nat)
    requires AllAligned(bs)
    ensures Cover(bs, a) >= 1 <==> a / PAGE_SIZE in PagesOf(bs)
  {
    if bs != [] {
      CoverOfPage(bs[..|bs| - 1], a);
      HitOfPage(bs[|bs| - 1], a);
    }
  }

  lemma {:induction false} MergeAligned(bs: seq<Span>)
    requires AllAligned(bs)
    ensures AllAligned(Merged(bs))
  {
    if bs != [] {
      MergeAligned(bs[..|bs| - 1]);
    }
  }

  /** One page can be allocated exactly when any page is left. */
  lemma {:induction false} OnePageFits(bs: seq<Span>)
    requires AllAligned(bs)
    ensures Fits(bs, PAGE_SIZE) <==> PagesOf(bs) != {}
  {
    if Fits(bs, PAGE_SIZE) {
      var b := bs[FirstFit(bs, PAGE_SIZE, 0)];
      CoverAtLeast(bs, FirstFit(bs, PAGE_SIZE, 0), b.start);
      CoverOfPage(bs, b.start);
    }
    if PagesOf(bs) != {} {
      var f :| f in PagesOf(bs);
      assert f * PAGE_SIZE / PAGE_SIZE == f;
      CoverOfPage(bs, f * PAGE_SIZE);
      var k := CoveredBySome(bs, f * PAGE_SIZE);
      assert Capacity(bs[k]) >= PAGE_SIZE;
    }
  }

  /** Allocating whole pages takes exactly those pages out of the table. */
  lemma CutPages(bs: seq<Span>, amount: nat)
    requires Paged(bs) && amount % PAGE_SIZE == 0 && Fits(bs, amount)
    ensures var t := Taken(bs, amount); Aligned(t) && PagesIn(t) <= PagesOf(bs)
    ensures var c := Cut(bs, amount);
            Paged(c) && PagesOf(c) == PagesOf(bs) - PagesIn(Taken(bs, amount))
  {
    var c, t := Cut(bs, amount), Taken(bs, amount);
    assert AllAligned(c) && Aligned(t);
    forall a: nat ensures Cover(c, a) + Hit(t, a) == Cover(bs, a) <= 1 {
      CutCover(bs, amount, a);
    }
    forall f: nat ensures f in PagesOf(c) <==> f in PagesOf(bs) && f !in PagesIn(t)
      ensures f in PagesIn(t) ==> f in PagesOf(bs)
    {
      var a := f * PAGE_SIZE;
      assert a / PAGE_SIZE == f;
      CoverOfPage(c, a);
      CoverOfPage(bs, a);
      HitOfPage(t, a);
    }
  }

  lemma AddedAligned(bs: seq<Span>, b: Span)
    requires AllAligned(bs) && Aligned(b)
    ensures AllAligned(Added(bs, b))
  {
    MergeAligned(bs);
  }

  lemma AddedPage(bs: seq<Span>, b: Span, a: nat)
    requires AllAligned(bs) && Aligned(b) && Cover(bs, a) <= 1 && PagesOf(bs) !! PagesIn(b)
    ensures Cover(Added(bs, b), a) <= 1
    ensures a / PAGE_SIZE in PagesOf(Added(bs, b))
       <==> a / PAGE_SIZE in PagesOf(bs) || (!Drops(bs, b) && a / PAGE_SIZE in PagesIn(b))
  {
    AddedCover(bs, b, a);
    AddedAligned(bs, b);
    CoverOfPage(bs, a);
    CoverOfPage(Added(bs, b), a);
    HitOfPage(b, a);
  }

  /** Giving whole pages back adds exactly those pages, or nothing when the block is dropped. */
  lemma AddedPages(bs: seq<Span>, b: Span)
    requires Paged(bs) && Aligned(b) && PagesOf(bs) !! PagesIn(b)
    ensures Paged(Added(bs, b))
    ensures PagesOf(Added(bs, b)) == PagesOf(bs) + if Drops(bs, b) then {} else PagesIn(b)
  {
    var c := Added(bs, b);
    AddedAligned(bs, b);
    AddedSize(bs, b);
    forall a: nat ensures Cover(c, a) <= 1 {
      AddedPage(bs, b, a);
    }
    forall f: nat
      ensures f in PagesOf(c) <==> f in PagesOf(bs) || (!Drops(bs, b) && f in PagesIn(b))
    {
      assert f * PAGE_SIZE / PAGE_SIZE == f;
      AddedPage(bs, b, f * PAGE_SIZE);
    }
  }

  lemma SinglePage(f: nat)
    ensures Aligned(Block(f * PAGE_SIZE, f * PAGE_SIZE + PAGE_SIZE))
    ensures PagesIn(Block(f * PAGE_SIZE, f * PAGE_SIZE + PAGE_SIZE)) == {f}
  {}
}
