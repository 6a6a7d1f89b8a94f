/** The block table of kernel/memory/memoryBlock.cpp on values.

    A block is a half-open range of addresses. A table is a sequence of blocks;
    what it means is the number of blocks that cover each address (`Cover`).
    The functions here say what each `BlockMap` method does to the table; the
    class in BlockMap.dfy is proved against them.
 */
module Blocks {
  const BLOCKMAP_SIZE: nat := 256

  datatype RawBlock = Block(start: nat, end: nat)

  /** Well-formed blocks only: the source never builds one that ends before it starts. */
  type Span = b: RawBlock | b.start <= b.end witness Block(0, 0)

  const EMPTY: Span := Block(0, 0)

  function Capacity(b: Span): nat {
    b.end - b.start
  }

  predicate Covers(b: Span, a: nat) {
    b.start <= a < b.end
  }

  /** 1 when `b` covers `a`, 0 otherwise. */
  function Hit(b: Span, a: nat): nat {
    if Covers(b, a) then 1 else 0
  }

  predicate Inside(b: Span, c: Span) {
    c.start <= b.start && b.end <= c.end
  }

  /** How many blocks of the table cover address `a`. */
  function Cover(bs: seq<Span>, a: nat): nat {
    if bs == [] then 0 else Cover(bs[..|bs| - 1], a) + Hit(bs[|bs| - 1], a)
  }

  /** No address is covered twice. */
  ghost predicate Disjoint(bs: seq<Span>) {
    forall a: nat :: Cover(bs, a) <= 1
  }

  // ---------------------------------------------------------------------
  // Facts about Cover
  // ---------------------------------------------------------------------

  lemma CoverAppend(bs: seq<Span>, b: Span, a: nat)
    ensures Cover(bs + [b], a) == Cover(bs, a) + Hit(b, a)
  {
    assert (bs + [b])[..|bs|] == bs;
  }

  lemma {:induction false} CoverUpdate(bs: seq<Span>, j: nat, b: Span, a: nat)
    requires j < |bs|
    ensures Cover(bs[j := b], a) + Hit(bs[j], a) == Cover(bs, a) + Hit(b, a)
  {
    var n := |bs| - 1;
    if j == n {
      assert bs[j := b][..n] == bs[..n];
    } else {
      assert bs[j := b][..n] == bs[..n][j := b];
      CoverUpdate(bs[..n], j, b, a);
    }
  }

  lemma {:induction false} CoverAtLeast(bs: seq<Span>, k: nat, a: nat)
    requires k < |bs| && Covers(bs[k], a)
    ensures Cover(bs, a) >= 1
  {
    if k < |bs| - 1 {
      CoverAtLeast(bs[..|bs| - 1], k, a);
    }
  }

  lemma {:induction false} CoveredBySome(bs: seq<Span>, a: nat) returns (k: nat)
    requires Cover(bs, a) >= 1
    ensures k < |bs| && Covers(bs[k], a)
  {
    var n := |bs| - 1;
    if Covers(bs[n], a) {
      k := n;
    } else {
      k := CoveredBySome(bs[..n], a);
    }
  }

  /** Two different blocks that cover one address count twice. */
  lemma {:induction false} CoveredTwice(bs: seq<Span>, j: nat, k: nat, a: nat)
    requires j < k < |bs| && Covers(bs[j], a) && Covers(bs[k], a)
    ensures Cover(bs, a) >= 2
  {
    var n := |bs| - 1;
    if k == n {
      CoverAtLeast(bs[..n], j, a);
    } else {
      CoveredTwice(bs[..n], j, k, a);
    }
  }

  // ---------------------------------------------------------------------
  // merge
  // ---------------------------------------------------------------------

  predicate Adjacent(c: Span, b: Span) {
    c.start == b.end || c.end == b.start
  }

  /** The first index from `j` on whose block touches `b` end to end; |bs| if none. */
  function FirstAdjacent(bs: seq<Span>, b: Span, j: nat): (k: nat)
    requires j <= |bs|
    ensures j <= k <= |bs|
    ensures k < |bs| ==> Adjacent(bs[k], b)
    ensures forall i :: j <= i < k ==> !Adjacent(bs[i], b)
    decreases |bs| - j
  {
    if j == |bs| then j
    else if Adjacent(bs[j], b) then j
    else FirstAdjacent(bs, b, j + 1)
  }

  /** `c` extended by the adjacent block `b`; the front is tried first, as in the source. */
  function Extended(c: Span, b: Span): Span
    requires Adjacent(c, b)
  {
    if c.start == b.end then Block(b.start, c.end) else Block(c.start, b.end)
  }

  /** One round of the outer loop of `merge`. */
  function MergeInto(bs: seq<Span>, b: Span): seq<Span> {
    if Capacity(b) == 0 then bs
    else
      var k := FirstAdjacent(bs, b, 0);
      if k == |bs| then bs + [b] else bs[k := Extended(bs[k], b)]
  }

  function Merged(bs: seq<Span>): seq<Span> {
    if bs == [] then [] else MergeInto(Merged(bs[..|bs| - 1]), bs[|bs| - 1])
  }

  lemma MergeIntoCover(bs: seq<Span>, b: Span, a: nat)
    ensures Cover(MergeInto(bs, b), a) == Cover(bs, a) + Hit(b, a)
  {
    if Capacity(b) != 0 {
      var k := FirstAdjacent(bs, b, 0);
      if k == |bs| {
        CoverAppend(bs, b, a);
      } else {
        CoverUpdate(bs, k, Extended(bs[k], b), a);
      }
    }
  }

  /** `merge` keeps the number of blocks covering every address, overlaps included. */
  lemma {:induction false} MergeKeepsCover(bs: seq<Span>, a: nat)
    ensures Cover(Merged(bs), a) == Cover(bs, a)
  {
    if bs != [] {
      MergeKeepsCover(bs[..|bs| - 1], a);
      MergeIntoCover(Merged(bs[..|bs| - 1]), bs[|bs| - 1], a);
    }
  }

  ghost predicate NoEmpty(bs: seq<Span>) {
    forall k :: 0 <= k < |bs| ==> Capacity(bs[k]) > 0
  }

  /** How many blocks of the table hold at least one address. */
  function NonEmptyCount(bs: seq<Span>): nat {
    if bs == [] then 0
    else NonEmptyCount(bs[..|bs| - 1]) + if Capacity(bs[|bs| - 1]) > 0 then 1 else 0
  }

  lemma {:induction false} NonEmptyCountBound(bs: seq<Span>)
    ensures NonEmptyCount(bs) <= |bs|
    ensures (exists k :: 0 <= k < |bs| && Capacity(bs[k]) == 0) ==> NonEmptyCount(bs) < |bs|
  {
    if bs != [] {
      NonEmptyCountBound(bs[..|bs| - 1]);
      if k :| 0 <= k < |bs| && Capacity(bs[k]) == 0 && k < |bs| - 1 {
        assert Capacity(bs[..|bs| - 1][k]) == 0;
      }
    }
  }

  /** `merge` leaves no empty block and never more blocks than held memory before. */
  lemma {:induction false} MergeDropsEmpty(bs: seq<Span>)
    ensures NoEmpty(Merged(bs))
    ensures |Merged(bs)| <= NonEmptyCount(bs)
  {
    if bs != [] {
      MergeDropsEmpty(bs[..|bs| - 1]);
    }
  }

  /** Every old block that held memory lies inside one block of the merged table. */
  lemma {:induction false} MergeContains(bs: seq<Span>, i: nat) returns (k: nat)
    requires i < |bs| && Capacity(bs[i]) > 0
    ensures k < |Merged(bs)| && Inside(bs[i], Merged(bs)[k])
  {
    var n := |bs| - 1;
    var acc := Merged(bs[..n]);
    MergeDropsEmpty(bs[..n]);
    if i == n {
      k := FirstAdjacent(acc, bs[n], 0);
    } else {
      k := MergeContains(bs[..n], i);
    }
  }

  /** Two blocks of the table that hold memory touch end to end. */
  ghost predicate HasNeighbours(bs: seq<Span>) {
    exists i, j :: 0 <= i < j < |bs| && Neighbours(bs[i], bs[j])
  }

  predicate Neighbours(c: Span, b: Span) {
    c.start < c.end && b.start < b.end && (c.start == b.end || c.end == b.start)
  }

  /** A table that merging leaves as long as it was has all its blocks in it unchanged. */
  lemma {:induction false} NotJoined(bs: seq<Span>, i: nat)
    requires i < |bs| && Capacity(bs[i]) > 0 && |Merged(bs)| == NonEmptyCount(bs)
    ensures bs[i] in Merged(bs)
  {
    var n := |bs| - 1;
    var acc := Merged(bs[..n]);
    MergeDropsEmpty(bs[..n]);
    if i < n {
      NotJoined(bs[..n], i);
      assert bs[..n][i] == bs[i];
      assert Merged(bs) == acc || Merged(bs) == acc + [bs[n]];
    } else {
      assert Merged(bs) == acc + [bs[n]];
      assert Merged(bs)[|acc|] == bs[n];
    }
  }

  /** The edges of a merged block are edges of blocks that held memory. */
  lemma {:induction false} EdgesComeFrom(bs: seq<Span>, k: nat) returns (first: nat, last: nat)
    requires k < |Merged(bs)|
    ensures first < |bs| && Capacity(bs[first]) > 0 && bs[first].start == Merged(bs)[k].start
    ensures last < |bs| && Capacity(bs[last]) > 0 && bs[last].end == Merged(bs)[k].end
  {
    var n := |bs| - 1;
    var acc := Merged(bs[..n]);
    MergeDropsEmpty(bs[..n]);
    if k < |acc| {
      first, last := EdgesComeFrom(bs[..n], k);
    } else {
      first, last := n, n;
    }
    if k < |acc| && Capacity(bs[n]) > 0 && FirstAdjacent(acc, bs[n], 0) == k {
      if acc[k].start == bs[n].end {
        first := n;
      } else {
        last := n;
      }
    }
  }

  /** `merge` frees an entry of the table exactly when two blocks that hold memory touch. */
  lemma {:induction false} MergeJoins(bs: seq<Span>)
    ensures |Merged(bs)| < NonEmptyCount(bs) <==> HasNeighbours(bs)
  {
    MergeDropsEmpty(bs);
    if bs != [] {
      var n := |bs| - 1;
      MergeDropsEmpty(bs[..n]);
      MergeJoins(bs[..n]);
      NeighboursSplit(bs);
      LastJoins(bs);
    }
  }

  /** Two blocks touch among the first ones, or one of them touches the last. */
  lemma NeighboursSplit(bs: seq<Span>)
    requires bs != []
    ensures var n := |bs| - 1;
            HasNeighbours(bs) <==> HasNeighbours(bs[..n]) || exists i :: 0 <= i < n && Neighbours(bs[i], bs[n])
  {
    hide Neighbours;
    var n := |bs| - 1;
    if HasNeighbours(bs[..n]) {
      var i, j :| 0 <= i < j < n && Neighbours(bs[..n][i], bs[..n][j]);
      assert Neighbours(bs[i], bs[j]);
    }
    if HasNeighbours(bs) {
      var i, j :| 0 <= i < j < |bs| && Neighbours(bs[i], bs[j]);
      if j < n {
        assert Neighbours(bs[..n][i], bs[..n][j]);
      }
    }
  }

  /** The last block is joined exactly when it touches another, unless some were joined before. */
  lemma LastJoins(bs: seq<Span>)
    requires bs != []
    ensures var n := |bs| - 1;
            var touches := exists i :: 0 <= i < n && Neighbours(bs[i], bs[n]);
            && (|Merged(bs[..n])| == NonEmptyCount(bs[..n]) && touches ==> |Merged(bs)| < NonEmptyCount(bs))
            && (|Merged(bs[..n])| < NonEmptyCount(bs[..n]) ==> |Merged(bs)| < NonEmptyCount(bs))
            && (|Merged(bs)| < NonEmptyCount(bs) ==> |Merged(bs[..n])| < NonEmptyCount(bs[..n]) || touches)
  {
    var n := |bs| - 1;
    var acc := Merged(bs[..n]);
    MergeDropsEmpty(bs[..n]);
    if i :| 0 <= i < n && Neighbours(bs[i], bs[n]) && |acc| == NonEmptyCount(bs[..n]) {
      assert bs[..n][i] == bs[i];
      NotJoined(bs[..n], i);
      var m :| 0 <= m < |acc| && acc[m] == bs[i];
      assert Adjacent(acc[m], bs[n]);
    }
    if Capacity(bs[n]) > 0 && FirstAdjacent(acc, bs[n], 0) < |acc| {
      var k := FirstAdjacent(acc, bs[n], 0);
      var first, last := EdgesComeFrom(bs[..n], k);
      assert bs[..n][first] == bs[first] && bs[..n][last] == bs[last];
      assert if acc[k].start == bs[n].end then Neighbours(bs[first], bs[n]) else Neighbours(bs[last], bs[n]);
    }
  }

  // ---------------------------------------------------------------------
  // addBlock
  // ---------------------------------------------------------------------

  /** A full table is merged first. */
  function Roomier(bs: seq<Span>): seq<Span> {
    if |bs| < BLOCKMAP_SIZE then bs else Merged(bs)
  }

  /** The block is silently dropped: it holds memory, and 256 blocks remain after `merge`. */
  predicate Drops(bs: seq<Span>, b: Span) {
    Capacity(b) > 0 && |bs| >= BLOCKMAP_SIZE && |Merged(bs)| >= BLOCKMAP_SIZE
  }

  /** Merging frees no entry of the table, so the next block is dropped. */
  predicate Full(bs: seq<Span>) {
    |Merged(bs)| >= BLOCKMAP_SIZE
  }

  lemma FullDrops(bs: seq<Span>, b: Span)
    requires |bs| <= BLOCKMAP_SIZE && Capacity(b) > 0
    ensures Drops(bs, b) <==> Full(bs)
    ensures |Added(bs, b)| <= |bs| + 1
  {
    hide Merged;
    NonEmptyCountBound(bs);
    MergeDropsEmpty(bs);
  }

  /** A table is full exactly when it has 256 blocks, all of them hold memory, and no two touch. */
  lemma FullMeans(bs: seq<Span>)
    requires |bs| <= BLOCKMAP_SIZE
    ensures Full(bs) <==> |bs| == 256 && (forall k :: 0 <= k < |bs| ==> bs[k].start < bs[k].end) && !HasNeighbours(bs)
  {
    hide Merged, HasNeighbours;
    NonEmptyCountBound(bs);
    if NoEmpty(bs) {
      AllCounted(bs);
    }
    MergeDropsEmpty(bs);
    MergeJoins(bs);
  }

  lemma {:induction false} AllCounted(bs: seq<Span>)
    requires NoEmpty(bs)
    ensures NonEmptyCount(bs) == |bs|
  {
    if bs != [] {
      AllCounted(bs[..|bs| - 1]);
    }
  }

  function Added(bs: seq<Span>, b: Span): seq<Span> {
    if Capacity(b) == 0 then bs
    else if Drops(bs, b) then Merged(bs)
    else Roomier(bs) + [b]
  }

  lemma RoomierCover(bs: seq<Span>, a: nat)
    ensures Cover(Roomier(bs), a) == Cover(bs, a)
  {
    MergeKeepsCover(bs, a);
  }

  /** `addBlock` adds exactly the block's addresses, or nothing when it drops the block. */
  lemma AddedCover(bs: seq<Span>, b: Span, a: nat)
    ensures Cover(Added(bs, b), a) == Cover(bs, a) + if Drops(bs, b) then 0 else Hit(b, a)
  {
    RoomierCover(bs, a);
    CoverAppend(Roomier(bs), b, a);
  }

  lemma AddedSize(bs: seq<Span>, b: Span)
    requires |bs| <= BLOCKMAP_SIZE
    ensures |Added(bs, b)| <= BLOCKMAP_SIZE
  {
    MergeDropsEmpty(bs);
    NonEmptyCountBound(bs);
  }

  // ---------------------------------------------------------------------
  // allocate
  // ---------------------------------------------------------------------

  /** The first block from index `j` on that can hold `amount`; |bs| if none. */
  function FirstFit(bs: seq<Span>, amount: nat, j: nat): (k: nat)
    requires j <= |bs|
    ensures j <= k <= |bs|
    ensures k < |bs| ==> Capacity(bs[k]) >= amount
    ensures forall i :: j <= i < k ==> Capacity(bs[i]) < amount
    decreases |bs| - j
  {
    if j == |bs| then j
    else if Capacity(bs[j]) >= amount then j
    else FirstFit(bs, amount, j + 1)
  }

  predicate Fits(bs: seq<Span>, amount: nat) {
    FirstFit(bs, amount, 0) < |bs|
  }

  /** What `allocate` hands out. */
  function Taken(bs: seq<Span>, amount: nat): Span
    requires Fits(bs, amount)
  {
    var b := bs[FirstFit(bs, amount, 0)];
    Block(b.start, b.start + amount)
  }

  /** The table after a successful `allocate`: the front of the first fitting block is cut off. */
  function Cut(bs: seq<Span>, amount: nat): seq<Span>
    requires Fits(bs, amount)
  {
    var k := FirstFit(bs, amount, 0);
    bs[k := Block(bs[k].start + amount, bs[k].end)]
  }

  /** Handed-out memory leaves the table and nothing else does. */
  lemma CutCover(bs: seq<Span>, amount: nat, a: nat)
    requires Fits(bs, amount)
    ensures Cover(Cut(bs, amount), a) + Hit(Taken(bs, amount), a) == Cover(bs, a)
  {
    var k := FirstFit(bs, amount, 0);
    CoverUpdate(bs, k, Block(bs[k].start + amount, bs[k].end), a);
  }

  // ---------------------------------------------------------------------
  // reserve
  // ---------------------------------------------------------------------

  /** The loop of `reserve` acts on the block: it is on neither side of `r`. */
  predicate Touches(b: Span, r: Span) {
    b.start < r.end && b.end > r.start
  }

  /** `r` leaves a piece of the block on both sides. */
  predicate Splits(b: Span, r: Span) {
    b.start < r.start && r.end < b.end
  }

  /** What remains of a touched block when it is not split. */
  function Trimmed(b: Span, r: Span): Span
    requires Touches(b, r) && !Splits(b, r)
  {
    if r.start <= b.start && b.end <= r.end then EMPTY
    else if r.start <= b.start then Block(r.end, b.end)
    else Block(b.start, r.start)
  }

  /** The table once the split block is emptied and its lower piece is put back. */
  function LowerBack(bs: seq<Span>, i: nat, r: Span): seq<Span>
    requires i < |bs| && Splits(bs[i], r)
  {
    Added(bs[i := EMPTY], Block(bs[i].start, r.start))
  }

  function Upper(b: Span, r: Span): Span
    requires Splits(b, r)
  {
    Block(r.end, b.end)
  }

  /** One round of the loop of `reserve`, at index `i`. */
  function ReserveStep(bs: seq<Span>, i: nat, r: Span): (res: seq<Span>)
    requires i < |bs| <= BLOCKMAP_SIZE
    ensures |res| <= BLOCKMAP_SIZE
  {
    if !Touches(bs[i], r) then bs
    else if Splits(bs[i], r) then
      AddedSize(bs[i := EMPTY], Block(bs[i].start, r.start));
      AddedSize(LowerBack(bs, i, r), Upper(bs[i], r));
      Added(LowerBack(bs, i, r), Upper(bs[i], r))
    else bs[i := Trimmed(bs[i], r)]
  }

  lemma ReserveStepIs(bs: seq<Span>, i: nat, r: Span)
    requires i < |bs| <= BLOCKMAP_SIZE
    ensures !Touches(bs[i], r) ==> ReserveStep(bs, i, r) == bs
    ensures Touches(bs[i], r) && Splits(bs[i], r) ==>
              ReserveStep(bs, i, r) == Added(LowerBack(bs, i, r), Upper(bs[i], r))
    ensures Touches(bs[i], r) && !Splits(bs[i], r) ==> ReserveStep(bs, i, r) == bs[i := Trimmed(bs[i], r)]
  {
    hide Added, Merged, Drops;
  }

  /** The loop of `reserve` from index `i` on, over a table that changes under it. */
  function ReserveFrom(bs: seq<Span>, i: nat, r: Span): seq<Span>
    requires |bs| <= BLOCKMAP_SIZE
    decreases BLOCKMAP_SIZE - i
  {
    if i >= |bs| then bs else ReserveFrom(ReserveStep(bs, i, r), i + 1, r)
  }

  function Reserved(bs: seq<Span>, r: Span): seq<Span>
    requires |bs| <= BLOCKMAP_SIZE
  {
    NonEmptyCountBound(bs);
    MergeDropsEmpty(bs);
    ReserveFrom(Merged(bs), 0, r)
  }

  /** The piece above `r` that the loop fails to put back, from index `i` on. */
  function LostFrom(bs: seq<Span>, i: nat, r: Span): Span
    requires |bs| <= BLOCKMAP_SIZE
    decreases BLOCKMAP_SIZE - i
  {
    if i >= |bs| then EMPTY
    else if Touches(bs[i], r) && Splits(bs[i], r) && Drops(LowerBack(bs, i, r), Upper(bs[i], r))
    then Upper(bs[i], r)
    else LostFrom(ReserveStep(bs, i, r), i + 1, r)
  }

  /** Once no block touches `r` the loop changes nothing. */
  lemma {:induction false} ReserveIdle(bs: seq<Span>, i: nat, r: Span)
    requires |bs| <= BLOCKMAP_SIZE
    requires forall k :: i <= k < |bs| ==> !Touches(bs[k], r)
    ensures ReserveFrom(bs, i, r) == bs && LostFrom(bs, i, r) == EMPTY
    decreases BLOCKMAP_SIZE - i
  {
    if i < |bs| {
      ReserveIdle(bs, i + 1, r);
    }
  }

  lemma TrimmedHit(b: Span, r: Span, a: nat)
    requires Touches(b, r) && !Splits(b, r)
    ensures Hit(Trimmed(b, r), a) == if Covers(r, a) then 0 else Hit(b, a)
    ensures !Touches(Trimmed(b, r), r)
  {}

  /** Nothing is covered at `r`, nor at its first address when `r` is empty. */
  ghost predicate BareAt(bs: seq<Span>, r: Span) {
    forall a: nat :: r.start <= a && (a < r.end || a == r.start) ==> Cover(bs, a) == 0
  }

  lemma UntouchedWhenBare(bs: seq<Span>, r: Span, k: nat)
    requires k < |bs| && Capacity(bs[k]) > 0 && BareAt(bs, r)
    ensures !Touches(bs[k], r)
  {
    if Touches(bs[k], r) {
      CoverAtLeast(bs, k, if bs[k].start <= r.start then r.start else bs[k].start);
    }
  }

  /** Emptying the block that `r` splits leaves a disjoint table bare at `r`. */
  lemma SplitLeavesBare(bs: seq<Span>, i: nat, r: Span)
    requires i < |bs| && Splits(bs[i], r) && Disjoint(bs)
    ensures BareAt(bs[i := EMPTY], r)
  {
    var bare := bs[i := EMPTY];
    forall a: nat | r.start <= a && (a < r.end || a == r.start)
      ensures Cover(bare, a) == 0
    {
      CoverUpdate(bs, i, EMPTY, a);
    }
  }

  /** Putting back a piece that avoids `r` leaves no block touching `r`, although the
      table may be merged and its blocks moved on the way. */
  lemma PutBackUntouched(bs: seq<Span>, b: Span, r: Span)
    requires BareAt(bs, r) && !Touches(b, r)
    requires forall k :: 0 <= k < |bs| ==> !Touches(bs[k], r)
    ensures forall k :: 0 <= k < |Added(bs, b)| ==> !Touches(Added(bs, b)[k], r)
  {
    MergeDropsEmpty(bs);
    forall a: nat ensures Cover(Merged(bs), a) == Cover(bs, a) {
      MergeKeepsCover(bs, a);
    }
    forall k | 0 <= k < |Merged(bs)| ensures !Touches(Merged(bs)[k], r) {
      UntouchedWhenBare(Merged(bs), r, k);
    }
  }

  /** After a split round no block touches `r` any more. */
  lemma SplitUntouches(bs: seq<Span>, i: nat, r: Span)
    requires i < |bs| <= BLOCKMAP_SIZE && Splits(bs[i], r) && Disjoint(bs)
    requires forall k :: 0 <= k < i ==> !Touches(bs[k], r)
    requires forall k :: i <= k < |bs| ==> Capacity(bs[k]) > 0
    ensures var s := ReserveStep(bs, i, r); forall k :: 0 <= k < |s| ==> !Touches(s[k], r)
  {
    var bare := bs[i := EMPTY];
    var lower: Span := Block(bs[i].start, r.start);
    SplitLeavesBare(bs, i, r);
    forall k | 0 <= k < |bare| ensures !Touches(bare[k], r) {
      if k > i {
        UntouchedWhenBare(bare, r, k);
      }
    }
    PutBackUntouched(bare, lower, r);
    assert BareAt(LowerBack(bs, i, r), r) by {
      forall a: nat | r.start <= a && (a < r.end || a == r.start)
        ensures Cover(LowerBack(bs, i, r), a) == 0
      {
        AddedCover(bare, lower, a);
      }
    }
    PutBackUntouched(LowerBack(bs, i, r), Upper(bs[i], r), r);
  }

  lemma EmptySlotMakesRoom(bs: seq<Span>, i: nat)
    requires i < |bs| <= BLOCKMAP_SIZE && Capacity(bs[i]) == 0
    ensures |Merged(bs)| < BLOCKMAP_SIZE
  {
    NonEmptyCountBound(bs);
    MergeDropsEmpty(bs);
  }

  /** The lower piece always finds room: the emptied slot is there to be merged away. */
  lemma LowerNeverDropped(bs: seq<Span>, i: nat, r: Span)
    requires i < |bs| <= BLOCKMAP_SIZE && Splits(bs[i], r)
    ensures !Drops(bs[i := EMPTY], Block(bs[i].start, r.start))
  {
    EmptySlotMakesRoom(bs[i := EMPTY], i);
  }

  /** With a spare slot the upper piece finds room too. */
  lemma UpperDroppedOnlyWhenFull(bs: seq<Span>, i: nat, r: Span)
    requires i < |bs| < BLOCKMAP_SIZE && Splits(bs[i], r)
    ensures !Drops(LowerBack(bs, i, r), Upper(bs[i], r))
  {
    EmptySlotMakesRoom(LowerBack(bs, i, r), i);
  }

  /** What one split round does to the cover of every address. */
  lemma SplitCover(bs: seq<Span>, i: nat, r: Span, a: nat)
    requires i < |bs| <= BLOCKMAP_SIZE && Splits(bs[i], r) && Disjoint(bs)
    ensures Cover(ReserveStep(bs, i, r), a)
            + (if Drops(LowerBack(bs, i, r), Upper(bs[i], r)) then Hit(Upper(bs[i], r), a) else 0)
            == if Covers(r, a) then 0 else Cover(bs, a)
  {
    assert Cover(bs, a) <= 1;
    hide Cover, Merged, Added, Drops, Disjoint;
    LowerNeverDropped(bs, i, r);
    CoverUpdate(bs, i, EMPTY, a);
    AddedCover(bs[i := EMPTY], Block(bs[i].start, r.start), a);
    AddedCover(LowerBack(bs, i, r), Upper(bs[i], r), a);
  }

  /** A trimming round removes exactly the addresses of `r` from the block at `i`. */
  lemma TrimCover(bs: seq<Span>, i: nat, r: Span, a: nat)
    requires i < |bs| <= BLOCKMAP_SIZE && Touches(bs[i], r) && !Splits(bs[i], r)
    ensures Cover(ReserveStep(bs, i, r), a)
            == Cover(bs, a) - if Covers(r, a) then Hit(bs[i], a) else 0
  {
    CoverUpdate(bs, i, Trimmed(bs[i], r), a);
    TrimmedHit(bs[i], r, a);
  }

  /** A block that touches `r` without holding it shares an address with it. */
  lemma {:induction false} BareOnceUntouched(bs: seq<Span>, r: Span, a: nat)
    requires Covers(r, a)
    requires forall k :: 0 <= k < |bs| ==> !Touches(bs[k], r)
    ensures Cover(bs, a) == 0
  {
    if bs != [] {
      BareOnceUntouched(bs[..|bs| - 1], r, a);
    }
  }

  /** The loop from index `i` on meets a disjoint table whose blocks before `i` avoid `r`. */
  ghost predicate LoopAt(bs: seq<Span>, i: nat, r: Span) {
    && |bs| <= BLOCKMAP_SIZE && Disjoint(bs)
    && (forall k :: 0 <= k < i && k < |bs| ==> !Touches(bs[k], r))
    && (forall k :: i <= k < |bs| ==> Capacity(bs[k]) > 0)
  }

  lemma TrimKeepsLoop(bs: seq<Span>, i: nat, r: Span)
    requires LoopAt(bs, i, r) && i < |bs| && Touches(bs[i], r) && !Splits(bs[i], r)
    ensures LoopAt(ReserveStep(bs, i, r), i + 1, r)
  {
    var s := ReserveStep(bs, i, r);
    forall x: nat ensures Cover(s, x) <= 1 {
      TrimCover(bs, i, r, x);
      assert Cover(bs, x) <= 1;
    }
    TrimmedHit(bs[i], r, 0);
  }

  /** The loop of `reserve`, run over a table that `addBlock` grows and `merge` shuffles
      under it, removes exactly `r` - except for the piece it may lose. */
  lemma {:induction false} ReserveFromCover(bs: seq<Span>, i: nat, r: Span, a: nat)
    requires LoopAt(bs, i, r)
    ensures Cover(ReserveFrom(bs, i, r), a) + Hit(LostFrom(bs, i, r), a)
            == if Covers(r, a) then 0 else Cover(bs, a)
    decreases BLOCKMAP_SIZE - i
  {
    hide Disjoint, Drops, LowerBack, Added, Cover;
    if i >= |bs| {
      if Covers(r, a) {
        BareOnceUntouched(bs, r, a);
      }
    } else if !Touches(bs[i], r) {
      ReserveFromCover(bs, i + 1, r, a);
    } else if Splits(bs[i], r) {
      SplitCover(bs, i, r, a);
      SplitUntouches(bs, i, r);
      ReserveIdle(ReserveStep(bs, i, r), i + 1, r);
    } else {
      TrimCover(bs, i, r, a);
      TrimKeepsLoop(bs, i, r);
      ReserveFromCover(ReserveStep(bs, i, r), i + 1, r, a);
    }
  }

  /** `r` splits some block of a table of 256, and putting the upper piece back drops it. */
  ghost predicate LosesAt(bs: seq<Span>, i: nat, r: Span) {
    i < |bs| && Splits(bs[i], r) && Drops(LowerBack(bs, i, r), Upper(bs[i], r))
  }

  /** In a disjoint table the block that `r` splits is the only one it touches. */
  lemma SplitIsAlone(bs: seq<Span>, i: nat, k: nat, r: Span)
    requires i < |bs| && k < |bs| && i != k && Disjoint(bs)
    requires Splits(bs[k], r) && Capacity(bs[i]) > 0
    ensures !Touches(bs[i], r)
  {
    if Touches(bs[i], r) {
      var a := if bs[i].start <= r.start then r.start else bs[i].start;
      CoveredTwice(bs, if i < k then i else k, if i < k then k else i, a);
    }
  }

  /** Where the upper piece is dropped, it is what the loop loses. */
  lemma {:induction false} LossSeen(bs: seq<Span>, i: nat, r: Span, k: nat)
    requires LoopAt(bs, i, r) && i <= k && LosesAt(bs, k, r)
    ensures LostFrom(bs, i, r) == Block(r.end, bs[k].end)
    decreases BLOCKMAP_SIZE - i
  {
    hide Disjoint, Drops, LowerBack, Added;
    if i < k {
      SplitIsAlone(bs, i, k, r);
      LossSeen(bs, i + 1, r, k);
    }
  }

  /** What the loop loses is the upper piece of a block where it is dropped. */
  lemma {:induction false} LossFound(bs: seq<Span>, i: nat, r: Span) returns (k: nat)
    requires LoopAt(bs, i, r) && Capacity(LostFrom(bs, i, r)) > 0
    ensures i <= k && LosesAt(bs, k, r)
    decreases BLOCKMAP_SIZE - i
  {
    hide Disjoint, Drops, LowerBack, Added;
    var s := ReserveStep(bs, i, r);
    if !Touches(bs[i], r) {
      k := LossFound(bs, i + 1, r);
    } else if Splits(bs[i], r) {
      k := i;
      SplitUntouches(bs, i, r);
      ReserveIdle(s, i + 1, r);
    } else {
      TrimKeepsLoop(bs, i, r);
      k := LossFound(s, i + 1, r);
      SplitIsAlone(bs, i, k, r);
    }
  }

  /** The piece that `reserve(r)` fails to put back; empty when nothing is lost. */
  function Lost(bs: seq<Span>, r: Span): Span
    requires |bs| <= BLOCKMAP_SIZE
  {
    NonEmptyCountBound(bs);
    MergeDropsEmpty(bs);
    LostFrom(Merged(bs), 0, r)
  }

  lemma MergedDisjoint(bs: seq<Span>)
    requires Disjoint(bs)
    ensures Disjoint(Merged(bs))
  {
    forall a: nat ensures Cover(Merged(bs), a) <= 1 {
      MergeKeepsCover(bs, a);
    }
  }

  /** `reserve(r)` on a disjoint table: every address of `r` leaves the table, and every other
      address stays except those of the lost piece. */
  lemma ReserveCover(bs: seq<Span>, r: Span, a: nat)
    requires |bs| <= BLOCKMAP_SIZE && Disjoint(bs)
    ensures Cover(Reserved(bs, r), a) + Hit(Lost(bs, r), a) == if Covers(r, a) then 0 else Cover(bs, a)
  {
    NonEmptyCountBound(bs);
    MergeDropsEmpty(bs);
    MergedDisjoint(bs);
    ReserveFromCover(Merged(bs), 0, r, a);
    MergeKeepsCover(bs, a);
  }

  lemma LosesOnlyWhenFull(bs: seq<Span>, i: nat, r: Span)
    requires |bs| <= BLOCKMAP_SIZE && LosesAt(bs, i, r)
    ensures |bs| == BLOCKMAP_SIZE && i < |bs| && Splits(bs[i], r)
  {
    if |bs| < BLOCKMAP_SIZE {
      UpperDroppedOnlyWhenFull(bs, i, r);
    }
  }

  /** Something is lost exactly when `r` splits a block of the merged table, the merged table
      has 256 blocks and the upper piece is dropped; what is lost starts where `r` ends. */
  lemma LostIs(bs: seq<Span>, r: Span)
    requires |bs| <= BLOCKMAP_SIZE && Disjoint(bs)
    ensures Capacity(Lost(bs, r)) > 0 <==> exists i: nat :: LosesAt(Merged(bs), i, r)
    ensures Capacity(Lost(bs, r)) > 0 ==> Lost(bs, r).start == r.end && |Merged(bs)| == BLOCKMAP_SIZE
  {
    hide LosesAt, LostFrom, Disjoint, Merged, NonEmptyCount;
    NonEmptyCountBound(bs);
    MergeDropsEmpty(bs);
    MergedDisjoint(bs);
    if Capacity(Lost(bs, r)) > 0 {
      var k := LossFound(Merged(bs), 0, r);
      assert LosesAt(Merged(bs), k, r);
    }
    if i: nat :| LosesAt(Merged(bs), i, r) {
      LossSeen(Merged(bs), 0, r, i);
      LosesOnlyWhenFull(Merged(bs), i, r);
    }
  }

  /** `reserve` is exact if and only if no block of the merged table is split with its upper
      piece dropped; in particular always when the merged table has at most 255 blocks. */
  lemma ReserveExact(bs: seq<Span>, r: Span)
    requires |bs| <= BLOCKMAP_SIZE && Disjoint(bs)
    ensures (forall a: nat :: Cover(Reserved(bs, r), a) == if Covers(r, a) then 0 else Cover(bs, a))
            <==> !exists i: nat :: LosesAt(Merged(bs), i, r)
    ensures |Merged(bs)| < BLOCKMAP_SIZE ==> !exists i: nat :: LosesAt(Merged(bs), i, r)
  {
    hide LosesAt, Merged, Reserved, Lost, Cover;
    LostIs(bs, r);
    forall a: nat
      ensures Cover(Reserved(bs, r), a) + Hit(Lost(bs, r), a) == if Covers(r, a) then 0 else Cover(bs, a)
    {
      ReserveCover(bs, r, a);
    }
    if Capacity(Lost(bs, r)) > 0 {
      var a := Lost(bs, r).start;
      assert Hit(Lost(bs, r), a) == 1;
      assert Cover(Reserved(bs, r), a) + 1 == Cover(bs, a);
    }
  }
}
