/** Class `BlockMap` of kernel/include/mykonos/memoryBlock.h and
    kernel/memory/memoryBlock.cpp: a fixed array of 256 blocks edited in place.

    Each method is proved against the function of module Blocks that says what it does
    to the table. The spinlock is left out: every method body runs under it.
 */
module BlockMaps {
  import opened Blocks

  class BlockMap {
    const blocks: array<Span>
    var numBlocks: nat

    ghost predicate Valid()
      reads this, blocks
    {
      blocks.Length == BLOCKMAP_SIZE && numBlocks <= BLOCKMAP_SIZE
    }

    ghost function Contents(): (bs: seq<Span>)
      requires Valid()
      reads this, blocks
    {
      blocks[..numBlocks]
    }

    constructor ()
      ensures Valid() && Contents() == [] && fresh(blocks)
    {
      blocks := new Span[BLOCKMAP_SIZE](_ => EMPTY);
      numBlocks := 0;
    }

    method Clear()
      requires Valid()
      modifies this
      ensures Valid() && Contents() == []
    {
      numBlocks := 0;
    }

    method Merge()
      requires Valid()
      modifies this, blocks
      ensures Valid() && Contents() == Merged(old(Contents()))
      ensures numBlocks <= old(numBlocks)
    {
      var temp := new Span[numBlocks](_ => EMPTY);
      var i := 0;
      while i < numBlocks
        invariant i <= numBlocks
        invariant forall k :: 0 <= k < i ==> temp[k] == blocks[k]
        modifies temp
      {
        temp[i] := blocks[i];
        i := i + 1;
      }
      assert temp[..] == old(Contents());
      Rebuild(temp);
    }

    /** The outer loop of `merge`: the table is emptied and refilled from the copy. */
    method Rebuild(temp: array<Span>)
      requires Valid() && temp != blocks && temp.Length <= BLOCKMAP_SIZE
      modifies this, blocks
      ensures Valid() && Contents() == Merged(temp[..]) && numBlocks <= temp.Length
    {
      ghost var before := temp[..];
      numBlocks := 0;
      var i := 0;
      while i < temp.Length
        invariant i <= temp.Length && temp[..] == before && numBlocks <= i
        invariant Contents() == Merged(before[..i])
      {
        assert before[..i + 1][..i] == before[..i];
        MergeOne(temp[i]);
        i := i + 1;
      }
      assert before[..i] == before;
    }

    /** The inner loop of `merge`, written in the source as a lambda that returns early. */
    method MergeOne(b: Span)
      requires blocks.Length == BLOCKMAP_SIZE && numBlocks < BLOCKMAP_SIZE
      modifies this, blocks
      ensures numBlocks <= old(numBlocks) + 1
      ensures blocks[..numBlocks] == MergeInto(old(blocks[..numBlocks]), b)
    {
      if b.end - b.start == 0 {
        return;
      }
      var j := 0;
      while j < numBlocks
        invariant j <= numBlocks == old(numBlocks)
        invariant blocks[..numBlocks] == old(blocks[..numBlocks])
        invariant FirstAdjacent(blocks[..numBlocks], b, 0) == FirstAdjacent(blocks[..numBlocks], b, j)
      {
        if blocks[j].start == b.end {
          blocks[j] := Block(b.start, blocks[j].end);
          return;
        }
        if blocks[j].end == b.start {
          blocks[j] := Block(blocks[j].start, b.end);
          return;
        }
        j := j + 1;
      }
      blocks[numBlocks] := b;
      numBlocks := numBlocks + 1;
    }

    method AddBlock(b: Span)
      requires Valid()
      modifies this, blocks
      ensures Valid() && Contents() == Added(old(Contents()), b)
      ensures b.start < b.end && old(numBlocks) < 256 ==> Contents() == old(Contents()) + [b]
    {
      if b.end - b.start > 0 {
        if numBlocks < BLOCKMAP_SIZE {
          blocks[numBlocks] := b;
          numBlocks := numBlocks + 1;
        } else {
          Merge();
          if numBlocks < BLOCKMAP_SIZE {
            blocks[numBlocks] := b;
            numBlocks := numBlocks + 1;
          }
        }
      }
    }

    method ReturnMemory(address: nat, amount: nat)
      requires Valid()
      modifies this, blocks
      ensures Valid() && Contents() == Added(old(Contents()), Block(address, address + amount))
    {
      AddBlock(Block(address, address + amount));
    }

    /** First fit; 0 is the null pointer of the source. */
    method Allocate(amount: nat) returns (result: nat)
      requires Valid()
      modifies blocks
      ensures Valid() && numBlocks == old(numBlocks)
      ensures old(Fits(Contents(), amount)) ==>
                result == old(Taken(Contents(), amount)).start && Contents() == old(Cut(Contents(), amount))
      ensures !old(Fits(Contents(), amount)) ==> result == 0 && Contents() == old(Contents())
      ensures (forall k :: 0 <= k < old(numBlocks) ==> Capacity(old(blocks[k])) < amount) ==> result == 0
      ensures forall k :: 0 <= k < old(numBlocks) && amount <= Capacity(old(blocks[k]))
                          && (forall i :: 0 <= i < k ==> Capacity(old(blocks[i])) < amount) ==>
                result == old(blocks[k]).start
                && Contents() == old(Contents())[k := Block(result + amount, old(blocks[k]).end)]
    {
      result := 0;
      var i := 0;
      while i < numBlocks
        invariant i <= numBlocks && result == 0
        invariant Contents() == old(Contents())
        invariant FirstFit(Contents(), amount, 0) == FirstFit(Contents(), amount, i)
      {
        if blocks[i].end - blocks[i].start >= amount {
          result := blocks[i].start;
          blocks[i] := Block(blocks[i].start + amount, blocks[i].end);
          break;
        }
        i := i + 1;
      }
    }

    /** Takes every address of `r` out of the table. The loop edits the table, and through
        `AddBlock` may grow and merge it, while running over it. */
    method Reserve(r: Span)
      requires Valid()
      modifies this, blocks
      ensures Valid() && Contents() == Reserved(old(Contents()), r)
    {
      hide Merged, Added, ReserveStep, Drops;
      Merge();
      var i := 0;
      while i < numBlocks
        invariant Valid()
        invariant ReserveFrom(Contents(), i, r) == Reserved(old(Contents()), r)
        decreases BLOCKMAP_SIZE - i
      {
        ghost var before := Contents();
        var current := blocks[i];
        if current.start >= r.end {
        } else if current.end <= r.start {
        } else if current.start >= r.start && current.end <= r.end {
          blocks[i] := EMPTY;
        } else {
          if current.start >= r.start {
            blocks[i] := Block(r.end, current.end);
          } else if current.end <= r.end {
            blocks[i] := Block(current.start, r.start);
          } else {
            blocks[i] := EMPTY;
            assert Contents() == before[i := EMPTY];
            AddBlock(Block(current.start, r.start));
            AddBlock(Block(r.end, current.end));
          }
        }
        ReserveStepIs(before, i, r);
        assert Contents() == ReserveStep(before, i, r);
        i := i + 1;
      }
    }
  }
}
