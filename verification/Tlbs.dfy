/** Page tables against the TLBs of all processors.

    Each TLB is a map of cached translations (section 5.5 of the AMD64 Architecture Programmer's
    Manual, Volume 2). At any time every TLB may load any translation the page tables hold and
    drop any it has (`Traffic`). */
module Tlbs {
  import opened Bits
  import opened Frames
  import opened PageTables

  type Tlb = map<nat, nat>

  // ---------------------------------------------------------------------
  // Pages of the heap
  // ---------------------------------------------------------------------

  /** The 36 translated bits of a 52-bit page number. */
  function Low(p: nat): nat { p % PAGES }

  /** The page of the heap's window with translated bits `n`. */
  function High(window: nat, n: nat): nat { window * PAGES + n }

  /** Heap pages share their untranslated bits, are not page 0 and lie outside the recursive slot. */
  ghost predicate InHeap(window: nat, p: nat) {
    p > 0 && p / PAGES == window && PathOf(Low(p))[0] != 511
  }

  lemma HeapPage(window: nat, p: nat)
    requires InHeap(window, p)
    ensures High(window, Low(p)) == p && PageOf(p * PAGE_SIZE) == Low(p) < PAGES
  {
    var n := Low(p);
    assert p == window * PAGES + n;
    Quotient(p * PAGE_SIZE, 0x1_0000_0000_0000, window, n * PAGE_SIZE);
    Quotient(n * PAGE_SIZE, 4096, n, 0);
  }

  lemma LowInjective(window: nat, p: nat, p': nat)
    requires InHeap(window, p) && InHeap(window, p') && Low(p) == Low(p')
    ensures p == p'
  {
    HeapPage(window, p);
    HeapPage(window, p');
  }

  // ---------------------------------------------------------------------
  // Page tables against TLBs
  // ---------------------------------------------------------------------

  ghost predicate Uncached(tlbs: seq<Tlb>, n: nat) {
    forall c :: 0 <= c < |tlbs| ==> n !in tlbs[c]
  }

  /** The pages of `s` are unmapped and cached by no processor. */
  ghost predicate Clean(window: nat, pages: map<nat, nat>, tlbs: seq<Tlb>, s: set<nat>) {
    forall p :: p in s ==> InHeap(window, p) && Low(p) !in pages && Uncached(tlbs, Low(p))
  }

  /** Every cached translation is the one in the page tables, except for pages of `dirty`. */
  ghost predicate Fresh(window: nat, pages: map<nat, nat>, tlbs: seq<Tlb>, dirty: set<nat>) {
    forall c, n :: 0 <= c < |tlbs| && n in tlbs[c] ==>
      High(window, n) in dirty || (n in pages && tlbs[c][n] == pages[n])
  }

  /** TLBs load what the page tables hold and drop what they like. */
  ghost predicate Traffic(pages: map<nat, nat>, tlbs: seq<Tlb>, tlbs': seq<Tlb>) {
    && |tlbs'| == |tlbs|
    && forall c, n :: 0 <= c < |tlbs'| && n in tlbs'[c] ==>
         (n in tlbs[c] && tlbs'[c][n] == tlbs[c][n]) || (n in pages && tlbs'[c][n] == pages[n])
  }

  /** Traffic spoils neither clean pages nor fresh caches: an unmapped page stays uncached where
      it is uncached. */
  lemma TrafficKeeps(window: nat, pages: map<nat, nat>, tlbs: seq<Tlb>, tlbs': seq<Tlb>, s: set<nat>, dirty: set<nat>)
    requires Traffic(pages, tlbs, tlbs')
    requires Clean(window, pages, tlbs, s) && Fresh(window, pages, tlbs, dirty)
    ensures Clean(window, pages, tlbs', s) && Fresh(window, pages, tlbs', dirty)
  {
    forall p | p in s ensures Uncached(tlbs', Low(p)) {
      forall c | 0 <= c < |tlbs'| ensures Low(p) !in tlbs'[c] {
        assert Low(p) !in tlbs[c];
      }
    }
  }

  /** `mapPage` flushes nothing, and need not: the page was clean. */
  lemma MapKeeps(window: nat, pages: map<nat, nat>, tlbs: seq<Tlb>, s: set<nat>, p: nat, e: nat)
    requires Clean(window, pages, tlbs, s) && Fresh(window, pages, tlbs, {}) && p in s
    ensures Clean(window, pages[Low(p) := e], tlbs, s - {p}) && Fresh(window, pages[Low(p) := e], tlbs, {})
  {
    forall p' | p' in s - {p} ensures Low(p') != Low(p) {
      if Low(p') == Low(p) {
        LowInjective(window, p, p');
      }
    }
  }

  /** Unmapping makes a page dirty at worst. */
  lemma UnmapKeeps(window: nat, pages: map<nat, nat>, tlbs: seq<Tlb>, s: set<nat>, dirty: set<nat>, p: nat)
    requires Clean(window, pages, tlbs, s) && Fresh(window, pages, tlbs, dirty) && InHeap(window, p)
    ensures Clean(window, pages - {Low(p)}, tlbs, s) && Fresh(window, pages - {Low(p)}, tlbs, dirty + {p})
  {
    HeapPage(window, p);
  }

  /** The pages of `dirty` are unmapped, and cached by none of the processors before `done` nor by
      `self`: how far the shootdown has come. */
  ghost predicate ShotUpTo(window: nat, pages: map<nat, nat>, tlbs: seq<Tlb>, dirty: set<nat>, done: nat, self: nat) {
    forall p :: p in dirty ==>
      && InHeap(window, p) && Low(p) !in pages
      && forall c :: 0 <= c < |tlbs| && (c < done || c == self) ==> Low(p) !in tlbs[c]
  }

  /** TLB traffic cannot bring back what a processor has invalidated: the page is unmapped. */
  lemma TrafficKeepsShot(window: nat, pages: map<nat, nat>, tlbs: seq<Tlb>, tlbs': seq<Tlb>, dirty: set<nat>,
                         done: nat, self: nat)
    requires Traffic(pages, tlbs, tlbs') && ShotUpTo(window, pages, tlbs, dirty, done, self)
    ensures ShotUpTo(window, pages, tlbs', dirty, done, self)
  {}

  /** `invlpg` of page `n` on processor `c`. */
  function Invalidated(tlbs: seq<Tlb>, c: nat, n: nat): seq<Tlb>
    requires c < |tlbs|
  {
    tlbs[c := tlbs[c] - {n}]
  }

  lemma InvalidateKeeps(window: nat, pages: map<nat, nat>, tlbs: seq<Tlb>, c: nat, n: nat, s: set<nat>, dirty: set<nat>)
    requires c < |tlbs| && Clean(window, pages, tlbs, s) && Fresh(window, pages, tlbs, dirty)
    ensures Clean(window, pages, Invalidated(tlbs, c, n), s) && Fresh(window, pages, Invalidated(tlbs, c, n), dirty)
  {
    var tlbs' := Invalidated(tlbs, c, n);
    forall p | p in s ensures Uncached(tlbs', Low(p)) {
      forall d | 0 <= d < |tlbs'| ensures Low(p) !in tlbs'[d] {
        assert Low(p) !in tlbs[d];
      }
    }
  }

  lemma InvalidateKeepsShot(window: nat, pages: map<nat, nat>, tlbs: seq<Tlb>, c: nat, n: nat, dirty: set<nat>,
                            done: nat, self: nat)
    requires c < |tlbs| && ShotUpTo(window, pages, tlbs, dirty, done, self)
    ensures ShotUpTo(window, pages, Invalidated(tlbs, c, n), dirty, done, self)
  {}

  /** Clearing the entry of `p` and invalidating it here adds `p` to the pages shot down here. */
  lemma UnmapShoots(window: nat, pages: map<nat, nat>, tlbs: seq<Tlb>, tlbs': seq<Tlb>, dirty: set<nat>, p: nat,
                    self: nat)
    requires ShotUpTo(window, pages, tlbs, dirty, 0, self) && self < |tlbs| && InHeap(window, p)
    requires Traffic(pages - {Low(p)}, tlbs, tlbs')
    ensures ShotUpTo(window, pages - {Low(p)}, Invalidated(tlbs', self, Low(p)), dirty + {p}, 0, self)
  {
    hide InHeap, Low;
    var after := Invalidated(tlbs', self, Low(p));
    forall q | q in dirty + {p}
      ensures InHeap(window, q) && Low(q) !in pages - {Low(p)}
      ensures forall c :: 0 <= c < |after| && (c < 0 || c == self) ==> Low(q) !in after[c]
    {
      if q in dirty {
        var n := Low(q);
        assert n !in pages && n !in tlbs[self];
        assert n in tlbs[self] || n in pages - {Low(p)} || n !in tlbs'[self];
      }
      assert Low(q) !in after[self];
    }
  }

  /** A page without an entry needs no invalidation here: it was not cached, or is shot down already. */
  lemma AbsentIsShot(window: nat, pages: map<nat, nat>, tlbs: seq<Tlb>, tlbs': seq<Tlb>, dirty: set<nat>, p: nat,
                     self: nat)
    requires ShotUpTo(window, pages, tlbs, dirty, 0, self) && self < |tlbs| && InHeap(window, p)
    requires Low(p) !in pages && Fresh(window, pages, tlbs, dirty) && Traffic(pages - {Low(p)}, tlbs, tlbs')
    ensures ShotUpTo(window, pages - {Low(p)}, tlbs', dirty + {p}, 0, self)
  {
    HeapPage(window, p);
    hide InHeap;
    assert pages - {Low(p)} == pages;
    assert p !in dirty ==> Low(p) !in tlbs[self];
    forall q | q in dirty + {p}
      ensures InHeap(window, q) && Low(q) !in pages
      ensures forall c :: 0 <= c < |tlbs'| && (c < 0 || c == self) ==> Low(q) !in tlbs'[c]
    {
      var n := Low(q);
      assert n !in tlbs[self];
      assert n in tlbs[self] || n in pages || n !in tlbs'[self];
    }
  }

  /** Dirty pages that are unmapped and uncached are clean. */
  lemma ShotDown(window: nat, pages: map<nat, nat>, tlbs: seq<Tlb>, dirty: set<nat>, self: nat)
    requires Fresh(window, pages, tlbs, dirty)
    requires ShotUpTo(window, pages, tlbs, dirty, |tlbs|, self)
    ensures Clean(window, pages, tlbs, dirty) && Fresh(window, pages, tlbs, {})
  {
    forall p | p in dirty ensures Uncached(tlbs, Low(p)) {
    }
    forall c, n | 0 <= c < |tlbs| && n in tlbs[c] ensures n in pages && tlbs[c][n] == pages[n] {
      var p := High(window, n);
      if p in dirty {
        HeapPage(window, p);
      }
    }
  }

  /** Processor `c` caches none of the pages of `done`. */
  ghost predicate GoneFrom(tlbs: seq<Tlb>, c: nat, done: set<nat>) {
    c < |tlbs| && forall p :: p in done ==> Low(p) !in tlbs[c]
  }

  lemma GoneStep(window: nat, pages: map<nat, nat>, tlbs: seq<Tlb>, tlbs': seq<Tlb>, c: nat, done: set<nat>, p: nat,
                 s: set<nat>, self: nat)
    requires GoneFrom(tlbs, c, done) && Traffic(pages, tlbs, tlbs') && done + {p} <= s
    requires ShotUpTo(window, pages, tlbs, s, c, self)
    ensures GoneFrom(Invalidated(tlbs', c, Low(p)), c, done + {p})
  {}

  lemma AllGone(window: nat, pages: map<nat, nat>, tlbs: seq<Tlb>, s: set<nat>, c: nat, self: nat)
    requires GoneFrom(tlbs, c, s) && ShotUpTo(window, pages, tlbs, s, c, self)
    ensures ShotUpTo(window, pages, tlbs, s, c + 1, self)
  {}

  lemma SelfIsShot(window: nat, pages: map<nat, nat>, tlbs: seq<Tlb>, s: set<nat>, self: nat)
    requires ShotUpTo(window, pages, tlbs, s, self, self)
    ensures ShotUpTo(window, pages, tlbs, s, self + 1, self)
  {}

  lemma NothingShot(window: nat, pages: map<nat, nat>, tlbs: seq<Tlb>, self: nat)
    ensures ShotUpTo(window, pages, tlbs, {}, 0, self)
  {}

  lemma HeapIsOutside(window: nat, p: nat)
    requires InHeap(window, p)
    ensures PathOf(Low(p))[0] != 511
  {}

  lemma InvalidatedLength(tlbs: seq<Tlb>, c: nat, n: nat)
    requires c < |tlbs|
    ensures |Invalidated(tlbs, c, n)| == |tlbs|
  {}

  lemma CleanPage(window: nat, pages: map<nat, nat>, tlbs: seq<Tlb>, s: set<nat>, p: nat)
    requires Clean(window, pages, tlbs, s) && p in s
    ensures InHeap(window, p) && Low(p) !in pages && Uncached(tlbs, Low(p))
  {}
}
