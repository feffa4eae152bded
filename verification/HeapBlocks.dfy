/** The heap as a sequence of blocks, without its bytes: what `malloc` and `free`
    promise is stated and proved here, and HeapAllocator shows the code meets it.

    Positions and lengths are counted in 4-byte words from HEAP_BASE; a header is two words. */
module HeapBlocks {

  const HEAP_BASE := 0x70_0000
  const MB_HEXA := 0x10_0000
  // The blocks tile MB_HEXA + 8 bytes: the header of the top block is not subtracted.
  const HEAP_END := 0x4_0002
  const NULL := 0

  datatype Block = Block(at: int, len: int, free: bool)

  function End(b: Block): int {
    b.at + 2 + b.len
  }

  function Addr(at: int): int {
    HEAP_BASE + 4 * at
  }

  // ----- Well-formed block sequences -----

  ghost predicate Joins(bs: seq<Block>, i: int)
    requires 0 <= i < |bs| - 1
  {
    bs[i + 1].at == End(bs[i])
  }

  ghost predicate Apart(bs: seq<Block>, i: int)
    requires 0 <= i < |bs| - 1
  {
    !(bs[i].free && bs[i + 1].free)
  }

  /** The blocks cover the heap with no gap and no overlap, and each can hold a link. */
  ghost predicate Tiled(bs: seq<Block>) {
    && |bs| > 0
    && bs[0].at == 0
    && End(bs[|bs| - 1]) == HEAP_END
    && (forall i :: 0 <= i < |bs| ==> bs[i].len >= 1)
    && (forall i :: 0 <= i < |bs| - 1 ==> Joins(bs, i))
  }

  /** No two neighbours are both free. */
  ghost predicate Coalesced(bs: seq<Block>) {
    forall i :: 0 <= i < |bs| - 1 ==> Apart(bs, i)
  }

  ghost predicate TopFree(bs: seq<Block>) {
    |bs| > 0 && bs[|bs| - 1].free
  }

  ghost predicate NoneFree(bs: seq<Block>) {
    forall i :: 0 <= i < |bs| ==> !bs[i].free
  }

  ghost predicate WellFormed(bs: seq<Block>) {
    Tiled(bs) && Coalesced(bs) && (TopFree(bs) || NoneFree(bs))
  }

  /** The blocks that are handed out. */
  ghost function Live(bs: seq<Block>): set<Block> {
    set b | b in bs && !b.free
  }

  lemma {:induction false} Ordered(bs: seq<Block>, i: int, j: int)
    requires Tiled(bs) && 0 <= i < j < |bs|
    ensures End(bs[i]) <= bs[j].at
    decreases j
  {
    assert Joins(bs, j - 1);
    if i < j - 1 {
      Ordered(bs, i, j - 1);
    }
  }

  ghost predicate InHeap(b: Block) {
    0 <= b.at && 0 <= b.len && End(b) <= HEAP_END
  }

  lemma InBounds(bs: seq<Block>, k: int)
    requires Tiled(bs) && 0 <= k < |bs|
    ensures InHeap(bs[k])
  {
    if k > 0 { Ordered(bs, 0, k); }
    if k < |bs| - 1 { Ordered(bs, k, |bs| - 1); }
  }

  // ----- Searching -----

  /** The first free block at index k or above, or |bs|. */
  function NextFree(bs: seq<Block>, k: nat): (j: nat)
    requires k <= |bs|
    ensures k <= j <= |bs|
    ensures j < |bs| ==> bs[j].free
    decreases |bs| - k
  {
    if k == |bs| || bs[k].free then k else NextFree(bs, k + 1)
  }

  /** The last free block below index k, or -1. */
  function PrevFree(bs: seq<Block>, k: nat): (j: int)
    requires k <= |bs|
    ensures -1 <= j < k
    ensures j >= 0 ==> bs[j].free
  {
    if k == 0 then -1 else if bs[k - 1].free then k - 1 else PrevFree(bs, k - 1)
  }

  lemma {:induction false} NextFreeSkips(bs: seq<Block>, k: nat, i: nat)
    requires k <= |bs| && k <= i < NextFree(bs, k)
    ensures !bs[i].free
    decreases |bs| - k
  {
    if k < i { NextFreeSkips(bs, k + 1, i); }
  }

  lemma {:induction false} PrevFreeSkips(bs: seq<Block>, k: nat, i: nat)
    requires k <= |bs| && PrevFree(bs, k) < i < k
    ensures !bs[i].free
  {
    if i < k - 1 { PrevFreeSkips(bs, k - 1, i); }
  }

  /** A block with no free block between it and index k is the next free one from k. */
  lemma {:induction false} NextFreeUpTo(bs: seq<Block>, k: nat, j: nat)
    requires k <= j <= |bs| && PrevFree(bs, j) < k
    requires j < |bs| ==> bs[j].free
    ensures NextFree(bs, k) == j
    decreases j - k
  {
    if k < j {
      PrevFreeSkips(bs, j, k);
      NextFreeUpTo(bs, k + 1, j);
    }
  }

  /** Where a walk of the free list starts: the first free block, or the top block when none is free. */
  function FirstIndex(bs: seq<Block>): (i: nat)
    requires |bs| > 0
    ensures i < |bs|
  {
    if NextFree(bs, 0) < |bs| then NextFree(bs, 0) else |bs| - 1
  }

  /** The block a search for `need` words stops at, or |bs|. Its first-fit reading is FirstFit. */
  function Pick(bs: seq<Block>, need: int): (i: nat)
    requires |bs| > 0
    ensures i <= |bs|
    ensures i < |bs| ==> bs[i].len >= need
    ensures TopFree(bs) && i < |bs| ==> bs[i].free
  {
    if bs[|bs| - 1].free then FirstFit(bs, need, 0)
    else if bs[|bs| - 1].len >= need then |bs| - 1 else |bs|
  }

  /** The lowest free block at index k or above with room for `need` words, or |bs| exactly when there is none. */
  function FirstFit(bs: seq<Block>, need: int, k: nat): (i: nat)
    requires k <= |bs|
    ensures k <= i <= |bs|
    ensures i < |bs| ==> bs[i].free && bs[i].len >= need
    decreases |bs| - k
  {
    if k == |bs| || (bs[k].free && bs[k].len >= need) then k else FirstFit(bs, need, k + 1)
  }

  lemma {:induction false} FirstFitPasses(bs: seq<Block>, need: int, k: nat, j: nat)
    requires k <= |bs| && k <= j < FirstFit(bs, need, k)
    ensures !(bs[j].free && bs[j].len >= need)
    decreases |bs| - k
  {
    if k < j { FirstFitPasses(bs, need, k + 1, j); }
  }

  lemma {:induction false} FirstFitSkips(bs: seq<Block>, need: int, k: nat)
    requires k <= |bs|
    ensures FirstFit(bs, need, NextFree(bs, k)) == FirstFit(bs, need, k)
    decreases |bs| - k
  {
    if k < |bs| && !bs[k].free {
      FirstFitSkips(bs, need, k + 1);
    }
  }

  /** Where the walk of the free list starts, and how it goes on, for a search of `need` words. */
  lemma SearchStarts(bs: seq<Block>, need: int)
    requires WellFormed(bs)
    ensures var k := FirstIndex(bs);
      if TopFree(bs) then bs[k].free && FirstFit(bs, need, k) == Pick(bs, need) else k == |bs| - 1
  {
    FirstFitSkips(bs, need, 0);
    if TopFree(bs) && NextFree(bs, 0) == |bs| { NextFreeSkips(bs, 0, |bs| - 1); }
  }

  lemma SearchGoesOn(bs: seq<Block>, need: int, k: nat)
    requires TopFree(bs) && k < |bs| - 1 && bs[k].len < need
    ensures var n := NextFree(bs, k + 1);
      n < |bs| && bs[n].free && FirstFit(bs, need, n) == FirstFit(bs, need, k)
  {
    FirstFitSkips(bs, need, k + 1);
    if NextFree(bs, k + 1) == |bs| { NextFreeSkips(bs, k + 1, |bs| - 1); }
  }

  /** With the top block the only one that is free, or none, a search starts there. */
  ghost predicate OnlyTop(bs: seq<Block>)
    requires |bs| > 0
  {
    PrevFree(bs, |bs| - 1) == -1
  }

  lemma FirstBelowTop(bs: seq<Block>)
    requires WellFormed(bs)
    ensures OnlyTop(bs) <==> FirstIndex(bs) == |bs| - 1
    ensures !OnlyTop(bs) ==> TopFree(bs)
  {
    if OnlyTop(bs) && FirstIndex(bs) < |bs| - 1 { PrevFreeSkips(bs, |bs| - 1, FirstIndex(bs)); }
    if !OnlyTop(bs) {
      if NextFree(bs, 0) > PrevFree(bs, |bs| - 1) { NextFreeSkips(bs, 0, PrevFree(bs, |bs| - 1)); }
    }
  }

  /** While only the top block is free, it is the one that is picked. */
  lemma PickedInReach(bs: seq<Block>, need: int)
    requires WellFormed(bs) && Pick(bs, need) < |bs| && OnlyTop(bs)
    ensures Pick(bs, need) == |bs| - 1
  {
    if Pick(bs, need) < |bs| - 1 {
      PrevFreeSkips(bs, |bs| - 1, Pick(bs, need));
    }
  }

  // ----- Taking and releasing a block -----

  /** The heap before its first allocation: all of it is one free block. */
  function FreshBlocks(): seq<Block> {
    [Block(0, MB_HEXA / 4, true)]
  }

  /** Handing out block i leaves a heap on which every scan ends: the top mark is kept, and the top block is free
      unless nothing is. `flag` is the code's note that the top block was taken. A reserved block is not split, unless
      it is the top. */
  ghost predicate ServedAt(bs: seq<Block>, i: nat, need: int, flag: int)
    requires i < |bs|
  {
    if i < |bs| - 1 then bs[i].free || bs[i].len - need < 3
    else bs[i].len - need >= 3 || (PrevFree(bs, i) == -1 && (bs[i].len == need || flag == 2))
  }

  ghost predicate Served(bs: seq<Block>, need: int, flag: int)
    requires |bs| > 0
  {
    Pick(bs, need) < |bs| ==> ServedAt(bs, Pick(bs, need), need, flag)
  }

  /** Less than 12 spare bytes go to the caller; otherwise the upper part stays free. */
  function Taken(b: Block, need: int): seq<Block> {
    if b.len - need < 3 then [b.(free := false)]
    else [Block(b.at, need, false), Block(b.at + need + 2, b.len - need - 2, true)]
  }

  function Take(bs: seq<Block>, i: nat, need: int): seq<Block>
    requires i < |bs|
  {
    bs[..i] + Taken(bs[i], need) + bs[i + 1..]
  }

  /** The run of blocks that freeing block i joins into one is bs[Low(bs, i)..High(bs, i)]. */
  function Low(bs: seq<Block>, i: nat): nat
    requires i < |bs|
  {
    if i > 0 && bs[i - 1].free then i - 1 else i
  }

  function High(bs: seq<Block>, i: nat): nat
    requires i < |bs|
  {
    if i + 1 < |bs| && bs[i + 1].free then i + 2 else i + 1
  }

  function Release(bs: seq<Block>, i: nat): seq<Block>
    requires i < |bs|
  {
    var lo, hi := Low(bs, i), High(bs, i);
    bs[..lo] + [Block(bs[lo].at, End(bs[hi - 1]) - bs[lo].at - 2, true)] + bs[hi..]
  }

  /** Replacing the blocks i..j by `mid`, which covers the same words, keeps a tiling. */
  lemma SpliceTiled(bs: seq<Block>, i: nat, mid: seq<Block>, j: nat)
    requires Tiled(bs) && i < j <= |bs| && |mid| > 0
    requires mid[0].at == bs[i].at && End(mid[|mid| - 1]) == End(bs[j - 1])
    requires forall k :: 0 <= k < |mid| ==> mid[k].len >= 1
    requires forall k :: 0 <= k < |mid| - 1 ==> Joins(mid, k)
    ensures Tiled(bs[..i] + mid + bs[j..])
  {
    var bs' := bs[..i] + mid + bs[j..];
    forall k | 0 <= k < |bs'| - 1
      ensures Joins(bs', k)
    {
      if k < i {
        assert Joins(bs, k);
      } else if k < i + |mid| - 1 {
        assert Joins(mid, k - i);
      } else {
        assert Joins(bs, k - i - |mid| + j);
      }
    }
  }

  lemma TakeWellFormed(bs: seq<Block>, i: nat, need: int, flag: int)
    requires WellFormed(bs) && i < |bs| && 1 <= need <= bs[i].len && ServedAt(bs, i, need, flag)
    ensures WellFormed(Take(bs, i, need))
    ensures TopFree(Take(bs, i, need)) <==> if i == |bs| - 1 then bs[i].len - need >= 3 else TopFree(bs)
  {
    var mid, bs' := Taken(bs[i], need), Take(bs, i, need);
    SpliceTiled(bs, i, mid, i + 1);
    forall k | 0 <= k < |bs'| - 1
      ensures Apart(bs', k)
    {
      if k + 1 < i {
        assert Apart(bs, k);
      } else if k > i {
        assert Apart(bs, k - |mid| + 1);
      }
    }
    if i == |bs| - 1 && bs[i].len - need < 3 {
      forall k | 0 <= k < i
        ensures !bs'[k].free
      {
        PrevFreeSkips(bs, i, k);
      }
    }
  }

  /** Block i and its free neighbours, which are the whole run. */
  lemma Run(bs: seq<Block>, i: nat)
    requires WellFormed(bs) && i < |bs| && !bs[i].free
    ensures var lo, hi := Low(bs, i), High(bs, i);
      && lo <= i < hi <= |bs|
      && End(bs[hi - 1]) - bs[lo].at >= 2 + bs[i].len
      && (lo > 0 ==> !bs[lo - 1].free)
      && (hi < |bs| ==> !bs[hi].free)
      && (forall k :: lo <= k < hi && k != i ==> bs[k].free)
  {
    var lo, hi := Low(bs, i), High(bs, i);
    if lo < i {
      assert Joins(bs, lo);
      assert lo > 0 ==> Apart(bs, lo - 1);
    }
    if hi == i + 2 {
      assert Joins(bs, i);
      assert hi < |bs| ==> Apart(bs, i + 1);
    }
  }

  lemma ReleaseWellFormed(bs: seq<Block>, i: nat)
    requires WellFormed(bs) && i < |bs| && !bs[i].free && (TopFree(bs) || i == |bs| - 1)
    ensures WellFormed(Release(bs, i)) && TopFree(Release(bs, i))
  {
    var lo, hi, bs' := Low(bs, i), High(bs, i), Release(bs, i);
    Run(bs, i);
    SpliceTiled(bs, lo, [bs'[lo]], hi);
    forall k | 0 <= k < |bs'| - 1
      ensures Apart(bs', k)
    {
      if k + 1 < lo {
        assert Apart(bs, k);
      } else if k > lo {
        assert Apart(bs, k - lo - 1 + hi);
      }
    }
  }

  /** Taking block i hands out one block, which starts where block i did. If block i was reserved, its owner has it no
      longer for itself. */
  lemma TakeLive(bs: seq<Block>, i: nat, need: int)
    requires Tiled(bs) && i < |bs| && 1 <= need <= bs[i].len
    ensures Live(Take(bs, i, need)) == Live(bs) - {bs[i]} + {Taken(bs[i], need)[0]}
    ensures Taken(bs[i], need)[0].at == bs[i].at && !Taken(bs[i], need)[0].free
    ensures need <= Taken(bs[i], need)[0].len <= need + 2
  {
    var bs', mid := Take(bs, i, need), Taken(bs[i], need);
    forall b: Block | !b.free
      ensures b in bs' <==> b == mid[0] || (b in bs && b != bs[i])
    {
      assert b in bs' <==> b in bs[..i] || b in mid || b in bs[i + 1..];
      if b in bs' && b != mid[0] {
        var k :| 0 <= k < |bs| && k != i && bs[k] == b;
        if k < i { Ordered(bs, k, i); } else { Ordered(bs, i, k); }
      }
      if b in bs && b != bs[i] {
        var k :| 0 <= k < |bs| && bs[k] == b;
        assert k < i ==> b == bs[..i][k];
        assert k > i ==> b == bs[i + 1..][k - i - 1];
      }
    }
  }

  /** Releasing block i gives back that block and no other. */
  lemma ReleaseLive(bs: seq<Block>, i: nat)
    requires WellFormed(bs) && i < |bs| && !bs[i].free
    ensures Live(Release(bs, i)) == Live(bs) - {bs[i]}
  {
    var lo, hi, bs' := Low(bs, i), High(bs, i), Release(bs, i);
    Run(bs, i);
    forall b: Block | !b.free
      ensures b in bs' <==> b in bs && b != bs[i]
    {
      assert b in bs' <==> b in bs[..lo] || b == bs'[lo] || b in bs[hi..];
      if b in bs && b != bs[i] {
        var k :| 0 <= k < |bs| && bs[k] == b;
        assert k < lo ==> b == bs[..lo][k];
        assert k >= hi ==> b == bs[hi..][k - hi];
      }
      if b in bs' {
        var k :| 0 <= k < |bs'| && bs'[k] == b;
        var k' := if k < lo then k else k - lo - 1 + hi;
        assert bs[k'] == b;
        if k' < i { Ordered(bs, k', i); } else { Ordered(bs, i, k'); }
      }
    }
  }
}
