/** Every run of `addBlock`, `allocate` and `returnMemory`: where each byte of memory is. */
module BlockLedger {
  import opened Blocks

  /** The block table, and beside it what callers hold, what was dropped and what was ever added. */
  datatype Ledger = Ledger(table: seq<Span>, live: seq<Span>, lost: seq<Span>, added: seq<Span>)

  const START := Ledger([], [], [], [])

  datatype Event =
    | Add(block: Span)
    | Allocate(amount: nat)
    | Return(k: nat, address: nat, amount: nat)  // part of the k-th live range

  /** Callers give back only memory they hold; part of a range may be given back, as kfree does. */
  predicate Enabled(s: Ledger, e: Event) {
    e.Return? ==>
      && e.k < |s.live|
      && s.live[e.k].start <= e.address && e.address + e.amount <= s.live[e.k].end
  }

  function Dropped(s: Ledger, b: Span): seq<Span> {
    if Drops(s.table, b) then s.lost + [b] else s.lost
  }

  function Step(s: Ledger, e: Event): Ledger
    requires Enabled(s, e)
  {
    match e
    case Add(b) =>
      s.(table := Added(s.table, b), lost := Dropped(s, b), added := s.added + [b])
    case Allocate(n) =>
      if Fits(s.table, n) then s.(table := Cut(s.table, n), live := s.live + [Taken(s.table, n)]) else s
    case Return(k, p, n) =>
      var b: Span := Block(p, p + n);
      var held := s.live[k];
      s.(table := Added(s.table, b), lost := Dropped(s, b),
      live := s.live[k := Block(held.start, p)] + [Block(p + n, held.end)])
  }

  predicate Legal(s: Ledger, es: seq<Event>)
    decreases |es|
  {
    es == [] || (Enabled(s, es[0]) && Legal(Step(s, es[0]), es[1..]))
  }

  function Run(s: Ledger, es: seq<Event>): Ledger
    requires Legal(s, es)
    decreases |es|
  {
    if es == [] then s else Run(Step(s, es[0]), es[1..])
  }

  /** Free, held and lost memory together are the memory ever added, address by address. */
  ghost predicate Balanced(s: Ledger) {
    forall a: nat :: Cover(s.table, a) + Cover(s.live, a) + Cover(s.lost, a) == Cover(s.added, a)
  }

  lemma DroppedCover(s: Ledger, b: Span, a: nat)
    ensures Cover(Added(s.table, b), a) + Cover(Dropped(s, b), a)
            == Cover(s.table, a) + Cover(s.lost, a) + Hit(b, a)
  {
    AddedCover(s.table, b, a);
    CoverAppend(s.lost, b, a);
  }

  lemma AllocateBalances(s: Ledger, n: nat, a: nat)
    requires Fits(s.table, n)
    ensures Cover(Cut(s.table, n), a) + Cover(s.live + [Taken(s.table, n)], a)
            == Cover(s.table, a) + Cover(s.live, a)
  {
    CutCover(s.table, n, a);
    CoverAppend(s.live, Taken(s.table, n), a);
  }

  /** Giving back the middle of a live range leaves its two ends live. */
  lemma ReturnBalances(live: seq<Span>, k: nat, p: nat, n: nat, a: nat)
    requires k < |live| && live[k].start <= p && p + n <= live[k].end
    ensures Cover(live[k := Block(live[k].start, p)] + [Block(p + n, live[k].end)], a) + Hit(Block(p, p + n), a)
            == Cover(live, a)
  {
    CoverUpdate(live, k, Block(live[k].start, p), a);
    CoverAppend(live[k := Block(live[k].start, p)], Block(p + n, live[k].end), a);
  }

  lemma StepBalanced(s: Ledger, e: Event)
    requires Enabled(s, e) && Balanced(s)
    ensures Balanced(Step(s, e))
  {
    hide Cover, Added, Drops, Cut, Taken, Dropped;
    var s' := Step(s, e);
    forall a: nat
      ensures Cover(s'.table, a) + Cover(s'.live, a) + Cover(s'.lost, a) == Cover(s'.added, a)
    {
      match e
      case Add(b) =>
        DroppedCover(s, b, a);
        CoverAppend(s.added, b, a);
      case Allocate(n) =>
        if Fits(s.table, n) {
          AllocateBalances(s, n, a);
        }
      case Return(k, p, n) =>
        DroppedCover(s, Block(p, p + n), a);
        ReturnBalances(s.live, k, p, n, a);
    }
  }

  /** No run creates or destroys memory: what leaves the table is held, returned or counted lost. */
  lemma {:induction false} RunBalanced(s: Ledger, es: seq<Event>)
    requires Legal(s, es) && Balanced(s)
    ensures Balanced(Run(s, es))
    decreases |es|
  {
    if es != [] {
      StepBalanced(s, es[0]);
      RunBalanced(Step(s, es[0]), es[1..]);
    }
  }

  /** When the added blocks do not overlap, no byte is handed out twice, none is both handed
      out and free, and none is free twice - after every run from the empty map. */
  lemma HandedOutOnce(es: seq<Event>, a: nat)
    requires Legal(START, es)
    requires Cover(Run(START, es).added, a) <= 1
    ensures var s := Run(START, es);
            Cover(s.table, a) + Cover(s.live, a) + Cover(s.lost, a) == Cover(s.added, a) <= 1
    ensures var s := Run(START, es);
            forall j, k :: 0 <= j < k < |s.live| ==> !(Covers(s.live[j], a) && Covers(s.live[k], a))
    ensures var s := Run(START, es);
            forall j, k :: 0 <= j < |s.live| && 0 <= k < |s.table| ==> !(Covers(s.live[j], a) && Covers(s.table[k], a))
  {
    var s := Run(START, es);
    RunBalanced(START, es);
    forall j, k | 0 <= j < k < |s.live| ensures !(Covers(s.live[j], a) && Covers(s.live[k], a)) {
      if Covers(s.live[j], a) && Covers(s.live[k], a) {
        CoveredTwice(s.live, j, k, a);
      }
    }
    forall j, k | 0 <= j < |s.live| && 0 <= k < |s.table|
      ensures !(Covers(s.live[j], a) && Covers(s.table[k], a))
    {
      if Covers(s.live[j], a) && Covers(s.table[k], a) {
        CoverAtLeast(s.live, j, a);
        CoverAtLeast(s.table, k, a);
      }
    }
  }

  /** Memory is lost only by adding to a table that still has 256 blocks once merged. */
  lemma LostOnlyWhenFull(s: Ledger, e: Event, a: nat)
    requires Enabled(s, e) && Cover(Step(s, e).lost, a) != Cover(s.lost, a)
    ensures |Merged(s.table)| >= BLOCKMAP_SIZE
    ensures Cover(Step(s, e).lost, a) == Cover(s.lost, a) + 1
    ensures Cover(Step(s, e).table, a) == Cover(s.table, a)
  {
    var b: Span := if e.Add? then e.block else Block(e.address, e.address + e.amount);
    CoverAppend(s.lost, b, a);
    AddedCover(s.table, b, a);
  }
}
