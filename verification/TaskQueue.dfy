/** kernel/include/mykonos/task/taskQueue.h: the intrusive queue behind every ready and wait list.

    Queues share control blocks and link them through one `next` field, which nothing ever clears:
    past the tail, and in blocks that are in no queue, it may point anywhere. */
module TaskQueue {
  class ControlBlock {
    var next: ControlBlock?

    constructor ()
      ensures next == null
    {
      next := null;
    }
  }

  class Queue {
    var head: ControlBlock?
    var tail: ControlBlock?
    var size: nat
    ghost var contents: seq<ControlBlock>

    /** `head`, `tail` and `size` describe `contents`; only links up to the tail matter. */
    ghost predicate Valid()
      reads this, contents
    {
      && size == |contents|
      && (forall i, j :: 0 <= i < j < |contents| ==> contents[i] != contents[j])
      && (if contents == [] then head == null && tail == null
          else head == contents[0] && tail == contents[|contents| - 1])
      && (forall i :: 0 <= i < |contents| - 1 ==> contents[i].next == contents[i + 1])
    }

    constructor ()
      ensures Valid() && contents == []
    {
      head, tail, size, contents := null, null, 0, [];
    }

    method Push(value: ControlBlock)
      requires Valid() && value !in contents
      modifies this, if contents == [] then {} else {contents[|contents| - 1]}
      ensures Valid() && contents == old(contents) + [value]
    {
      if head == null {
        head := value;
        tail := value;
      } else {
        tail.next := value;
        tail := value;
      }
      size := size + 1;
      contents := contents + [value];
    }

    method PushFront(value: ControlBlock)
      requires Valid() && value !in contents
      modifies this, value
      ensures Valid() && contents == [value] + old(contents)
    {
      if head == null {
        head := value;
        tail := value;
      } else {
        value.next := head;
        head := value;
      }
      size := size + 1;
      contents := [value] + contents;
    }

    method Pop() returns (result: ControlBlock?)
      requires Valid()
      modifies this
      ensures Valid()
      ensures old(contents) == [] ==> result == null && contents == []
      ensures old(contents) != [] ==> result == old(contents)[0] && contents == old(contents)[1..]
    {
      result := head;
      if head != null {
        if head == tail {
          head := null;
          tail := null;
        } else {
          head := head.next;
        }
        size := size - 1;
        contents := contents[1..];
      }
    }
  }

  /** Any number of queues over shared blocks, no block in two of them. */
  ghost predicate AllValid(queues: set<Queue>, blocks: set<ControlBlock>)
    reads queues, blocks
  {
    && (forall q, b :: q in queues && b in q.contents ==> b in blocks)
    && (forall q :: q in queues ==> q.Valid())
    && (forall q, r, b :: q in queues && r in queues && q != r && b in q.contents ==> b !in r.contents)
  }

  ghost predicate InNone(queues: set<Queue>, b: ControlBlock)
    reads queues
  {
    forall q :: q in queues ==> b !in q.contents
  }

  /** Pushing a block that is in no queue changes the contents of that queue only, whatever stale
      links the blocks carry. */
  method PushShared(ghost queues: set<Queue>, ghost blocks: set<ControlBlock>, q: Queue, value: ControlBlock,
                    front: bool)
    requires AllValid(queues, blocks) && q in queues && value in blocks && InNone(queues, value)
    modifies q, blocks
    ensures AllValid(queues, blocks)
    ensures q.contents == if front then [value] + old(q.contents) else old(q.contents) + [value]
    ensures forall r :: r in queues && r != q ==> r.contents == old(r.contents) && r.size == old(r.size)
  {
    if front {
      q.PushFront(value);
    } else {
      q.Push(value);
    }
    forall r | r in queues && r != q ensures r.Valid() {
      assert old(r.Valid());
      forall i | 0 <= i < |r.contents| - 1 ensures r.contents[i].next == r.contents[i + 1] {
        assert r.contents[i] != value;
        assert r.contents[i] in r.contents && r.contents[i] !in old(q.contents);
      }
    }
  }

  /** Popping gives the first block, which is then in no queue and may be pushed again. */
  method PopShared(ghost queues: set<Queue>, ghost blocks: set<ControlBlock>, q: Queue) returns (result: ControlBlock?)
    requires AllValid(queues, blocks) && q in queues
    modifies q
    ensures AllValid(queues, blocks)
    ensures old(q.contents) == [] ==> result == null && q.contents == []
    ensures old(q.contents) != [] ==> result == old(q.contents)[0] && q.contents == old(q.contents)[1..]
    ensures forall r :: r in queues && r != q ==> r.contents == old(r.contents) && r.size == old(r.size)
    ensures result != null ==> InNone(queues, result)
  {
    result := q.Pop();
  }
}
