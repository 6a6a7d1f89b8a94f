/** A table on which `reserve` (kernel/memory/memoryBlock.cpp:77-106) loses memory. */
module ReserveLoss {
  import opened Blocks

  /** `n` blocks of 5 bytes, 5 bytes apart. */
  function Sparse(n: nat): (bs: seq<Span>)
    ensures |bs| == n
    ensures forall i :: 0 <= i < n ==> bs[i] == Block(10 * i, 10 * i + 5)
  {
    if n == 0 then [] else Sparse(n - 1) + [Block(10 * (n - 1), 10 * (n - 1) + 5)]
  }

  lemma {:induction false} SparseCover(n: nat, a: nat)
    ensures Cover(Sparse(n), a) == if a % 10 < 5 && a / 10 < n then 1 else 0
  {
    if n > 0 {
      SparseCover(n - 1, a);
      CoverAppend(Sparse(n - 1), Block(10 * (n - 1), 10 * (n - 1) + 5), a);
    }
  }

  ghost predicate Apart(bs: seq<Span>) {
    NoEmpty(bs) && forall i, j :: 0 <= i < j < |bs| ==> !Adjacent(bs[i], bs[j])
  }

  /** Blocks that do not touch are left as they are. */
  lemma {:induction false} MergedApart(bs: seq<Span>)
    requires Apart(bs)
    ensures Merged(bs) == bs
  {
    if bs != [] {
      hide FirstAdjacent, Extended, Adjacent;
      var n := |bs| - 1;
      ApartPrefix(bs);
      MergedApart(bs[..n]);
      LastIsApart(bs);
      assert bs == bs[..n] + [bs[n]];
    }
  }

  lemma ApartPrefix(bs: seq<Span>)
    requires Apart(bs) && bs != []
    ensures Apart(bs[..|bs| - 1]) && Capacity(bs[|bs| - 1]) > 0
  {
    hide Adjacent;
  }

  lemma LastIsApart(bs: seq<Span>)
    requires Apart(bs) && bs != []
    ensures FirstAdjacent(bs[..|bs| - 1], bs[|bs| - 1], 0) == |bs| - 1
  {
    hide Adjacent;
    var n := |bs| - 1;
    assert forall k :: 0 <= k < n ==> !Adjacent(bs[..n][k], bs[n]);
  }

  /** 256 blocks that do not touch, and a byte reserved inside the last: the bytes above it are no
      longer free, although they are not reserved. */
  lemma ReserveLoses()
    ensures var bs, r := Sparse(256), Block(2552, 2553);
            && Disjoint(bs) && !Covers(r, 2553) && Cover(bs, 2553) == 1 && Cover(Reserved(bs, r), 2553) == 0
  {
    hide Reserved, Merged, Cover, Lost;
    var bs := Sparse(256);
    var r: Span := Block(2552, 2553);
    forall a: nat ensures Cover(bs, a) <= 1 {
      SparseCover(256, a);
    }
    MergedApart(bs);
    UpperIsDropped(bs, r);
    SparseCover(256, 2553);
    LossIs(bs, r);
    ReserveCover(bs, r, 2553);
  }

  lemma LossIs(bs: seq<Span>, r: Span)
    requires |bs| == 256 && Disjoint(bs) && Apart(bs) && Merged(bs) == bs && LosesAt(bs, 255, r)
    ensures Lost(bs, r) == Block(r.end, bs[255].end)
  {
    hide LosesAt, LostFrom, Merged, Disjoint;
    LossSeen(bs, 0, r, 255);
  }

  lemma UpperIsDropped(bs: seq<Span>, r: Span)
    requires bs == Sparse(256) && r == Block(2552, 2553)
    ensures LosesAt(bs, 255, r)
  {
    hide Merged, Cover, Sparse;
    var rest := bs[..255];
    var lower: Span := Block(2550, 2552);
    MergedApart(rest);
    EmptyLast(rest);
    assert bs[255 := EMPTY] == rest + [EMPTY];
    assert LowerBack(bs, 255, r) == rest + [lower];
    MergedApart(rest + [lower]);
  }

  lemma EmptyLast(bs: seq<Span>)
    ensures Merged(bs + [EMPTY]) == Merged(bs)
  {
    assert (bs + [EMPTY])[..|bs|] == bs;
  }
}
