/** The allocator's endless client: 64 slots, each freed and allocated again in turn. */
module UserThread {
  import opened HeapBlocks
  import opened HeapWords
  import opened HeapAllocator
  import opened HeapLaws

  const PTRS_ARRAY_LENGTH := 64
  // The client's largest block: 0xf * 0x111 bytes rounded up, plus the at most 8 spare ones. In words.
  const MAX_NEED := 1024
  const MAX_LEN := 1026
  // Half of the heap, in words.
  const TOP_RESERVE := 0x2_0000

  // ----- How far the heap can fragment -----

  ghost function Reserved(bs: seq<Block>, k: nat): nat
    requires k <= |bs|
  {
    if k == 0 then 0 else Reserved(bs, k - 1) + (if bs[k - 1].free then 0 else 1)
  }

  lemma LiveAppend(bs: seq<Block>, b: Block)
    ensures Live(bs + [b]) == Live(bs) + (if b.free then {} else {b})
  {
  }

  lemma {:induction false} LiveCount(bs: seq<Block>, k: nat)
    requires Tiled(bs) && k <= |bs|
    ensures |Live(bs[..k])| == Reserved(bs, k)
  {
    if k == 0 {
      assert Live(bs[..0]) == {};
    } else {
      LiveCount(bs, k - 1);
      assert bs[..k] == bs[..k - 1] + [bs[k - 1]];
      LiveAppend(bs[..k - 1], bs[k - 1]);
      NotBelow(bs, k - 1);
    }
  }

  lemma NotBelow(bs: seq<Block>, k: nat)
    requires Tiled(bs) && k < |bs|
    ensures bs[k] !in Live(bs[..k])
  {
    if bs[k] in bs[..k] {
      var j :| 0 <= j < k && bs[j] == bs[k];
      Ordered(bs, j, k);
    }
  }

  /** Free blocks never touch, so below any block there is at most one per live block, and one more at its edge. */
  lemma {:induction false} PlaceBound(bs: seq<Block>, k: nat)
    requires Tiled(bs) && Coalesced(bs) && k < |bs|
    requires forall i :: 0 <= i < k ==> bs[i].len <= if bs[i].free then MAX_NEED - 1 else MAX_LEN
    ensures bs[k].at <= Reserved(bs, k) * (MAX_LEN + 2) + (k - Reserved(bs, k)) * (MAX_NEED + 1)
    ensures k - Reserved(bs, k) <= Reserved(bs, k) + if k > 0 && bs[k - 1].free then 1 else 0
  {
    if k > 0 {
      PlaceBound(bs, k - 1);
      assert Joins(bs, k - 1);
      if k > 1 { assert Apart(bs, k - 2); }
    }
  }

  /** If no free block below the top fits a request of the client, the top block holds more than half of the heap. */
  lemma TopIsLarge(bs: seq<Block>, need: int)
    requires WellFormed(bs) && TopFree(bs) && 1 <= need <= MAX_NEED && Pick(bs, need) >= |bs| - 1
    requires |Live(bs)| < PTRS_ARRAY_LENGTH && forall b :: b in Live(bs) ==> b.len <= MAX_LEN
    ensures 4 * bs[|bs| - 1].len >= 531220
  {
    var k := |bs| - 1;
    FirstFitLeast(bs, need);
    forall i | 0 <= i < k
      ensures bs[i].len <= if bs[i].free then MAX_NEED - 1 else MAX_LEN
    {
      assert !bs[i].free ==> bs[i] in Live(bs);
    }
    PlaceBound(bs, k);
    LiveCount(bs, |bs|);
    assert bs[..|bs|] == bs;
    if k > 0 { assert Apart(bs, k - 1); }
  }

  // ----- The client's invariant -----

  ghost function LivePtrs(bs: seq<Block>): set<int> {
    set b | b in Live(bs) :: Addr(b.at)
  }

  ghost predicate Distinct(ptrs: seq<int>) {
    forall i, j :: 0 <= i < j < |ptrs| ==> ptrs[i] != ptrs[j]
  }

  /** The live blocks are exactly those the slots point to: none is lost, none is handed out twice. */
  ghost predicate Tracks(bs: seq<Block>, ptrs: seq<int>) {
    Distinct(ptrs) && forall p :: p in ptrs <==> p in LivePtrs(bs)
  }

  ghost predicate Roomy(bs: seq<Block>) {
    && WellFormed(bs) && TopFree(bs)
    && bs[|bs| - 1].len >= TOP_RESERVE
    && forall b :: b in Live(bs) ==> b.len <= MAX_LEN
  }

  lemma LiveAt(bs: seq<Block>, p: int) returns (b: Block)
    requires p in LivePtrs(bs)
    ensures b in Live(bs) && Addr(b.at) == p
  {
    b :| b in Live(bs) && Addr(b.at) == p;
  }

  lemma LivePtrsCount(bs: seq<Block>)
    requires Tiled(bs)
    ensures |LivePtrs(bs)| == |Live(bs)|
  {
    forall b, c | b in Live(bs) && c in Live(bs) && b != c
      ensures Addr(b.at) != Addr(c.at)
    {
      Disjoint(bs, b, c);
    }
    SameSize(Live(bs), LivePtrs(bs));
  }

  lemma {:induction false} SameSize(s: set<Block>, t: set<int>)
    requires t == set b | b in s :: Addr(b.at)
    requires forall b, c :: b in s && c in s && b != c ==> Addr(b.at) != Addr(c.at)
    ensures |s| == |t|
  {
    if s == {} {
      assert t == {};
    } else {
      var b :| b in s;
      assert t - {Addr(b.at)} == set c | c in s - {b} :: Addr(c.at);
      SameSize(s - {b}, t - {Addr(b.at)});
    }
  }

  /** Freeing never shrinks the top block. */
  lemma ReleaseTop(bs: seq<Block>, i: nat)
    requires WellFormed(bs) && TopFree(bs) && i < |bs| && !bs[i].free
    ensures var bs' := Release(bs, i); bs'[|bs'| - 1].len >= bs[|bs| - 1].len
  {
    Run(bs, i);
    var lo, hi := Low(bs, i), High(bs, i);
    if hi == |bs| {
      Ordered(bs, lo, |bs| - 1);
    }
  }

  lemma RoomyPicks(bs: seq<Block>, need: int)
    requires Roomy(bs) && 1 <= need <= MAX_NEED
    ensures Pick(bs, need) < |bs| && Served(bs, need, 1)
  {
    FirstFitLeast(bs, need);
  }

  /** Splitting the top block costs it the request and a header; handing out another block costs it nothing. */
  lemma TakeTop(bs: seq<Block>, i: nat, need: int)
    requires Tiled(bs) && i < |bs| && 1 <= need <= bs[i].len && (i == |bs| - 1 ==> bs[i].len - need >= 3)
    ensures var bs' := Take(bs, i, need);
      |bs'| > 0 && bs'[|bs'| - 1].len == bs[|bs| - 1].len - if i == |bs| - 1 then need + 2 else 0
  {
    TakeShape(bs, i, need);
  }

  lemma TakeRoomy(bs: seq<Block>, i: nat, need: int)
    requires Roomy(bs) && 1 <= need <= MAX_NEED && |Live(bs)| < PTRS_ARRAY_LENGTH
    requires i == Pick(bs, need) && i < |bs|
    ensures Roomy(Take(bs, i, need))
  {
    RoomyPicks(bs, need);
    HandsOutFresh(bs, need, 1);
    TakeWellFormed(bs, i, need, 1);
    if i == |bs| - 1 { TopIsLarge(bs, need); }
    TakeTop(bs, i, need);
  }

  lemma TakeTracks(bs: seq<Block>, ptrs: seq<int>, i: nat, need: int)
    requires WellFormed(bs) && TopFree(bs) && 1 <= need && Served(bs, need, 1) && Tracks(bs, ptrs)
    requires i == Pick(bs, need) && i < |bs|
    ensures Tracks(Take(bs, i, need), ptrs + [Addr(bs[i].at)])
  {
    HandsOutFresh(bs, need, 1);
    var p := Addr(bs[i].at);
    assert LivePtrs(Take(bs, i, need)) == LivePtrs(bs) + {p};
    if p in LivePtrs(bs) {
      var c := LiveAt(bs, p);
      AtOnce(bs, c, i);
    }
  }

  /** One allocation of the client, seen on the blocks: it is granted, and the room is kept. */
  lemma StepTakes(bs: seq<Block>, ptrs: seq<int>, need: int)
    requires Roomy(bs) && 1 <= need <= MAX_NEED && |Live(bs)| < PTRS_ARRAY_LENGTH && Tracks(bs, ptrs)
    ensures var i := Pick(bs, need);
      && i < |bs| && Served(bs, need, 1) && InHeap(bs[i])
      && Roomy(Take(bs, i, need)) && Tracks(Take(bs, i, need), ptrs + [Addr(bs[i].at)])
  {
    RoomyPicks(bs, need);
    InBounds(bs, Pick(bs, need));
    TakeRoomy(bs, Pick(bs, need), need);
    TakeTracks(bs, ptrs, Pick(bs, need), need);
  }

  /** Freeing slot j, seen on the blocks; `rest` are the other slots. */
  lemma StepReleases(bs: seq<Block>, ptrs: seq<int>, j: nat) returns (i: nat)
    requires Roomy(bs) && Tracks(bs, ptrs) && j < |ptrs| && |ptrs| == PTRS_ARRAY_LENGTH
    ensures i < |bs| && !bs[i].free && ptrs[j] == Addr(bs[i].at) > 0
    ensures Roomy(Release(bs, i)) && |Live(Release(bs, i))| < PTRS_ARRAY_LENGTH
    ensures Tracks(Release(bs, i), ptrs[..j] + ptrs[j + 1..])
  {
    var b := LiveAt(bs, ptrs[j]);
    i := IndexOf(bs, b);
    InBounds(bs, i);
    ReleaseWellFormed(bs, i);
    ReleaseLive(bs, i);
    ReleaseTop(bs, i);
    var bs', rest := Release(bs, i), ptrs[..j] + ptrs[j + 1..];
    LiveSize(bs, ptrs);
    forall p
      ensures p in rest <==> p in LivePtrs(bs')
    {
      assert p in rest <==> p in ptrs && p != ptrs[j];
      if p in LivePtrs(bs) && p != ptrs[j] {
        var c := LiveAt(bs, p);
        assert c in Live(bs');
      }
      if p in LivePtrs(bs') {
        var c := LiveAt(bs', p);
        if p == ptrs[j] { AtOnce(bs, c, i); }
      }
    }
  }

  lemma LiveSize(bs: seq<Block>, ptrs: seq<int>)
    requires Tiled(bs) && Tracks(bs, ptrs)
    ensures |Live(bs)| == |ptrs|
  {
    LivePtrsCount(bs);
    assert LivePtrs(bs) == set p | p in ptrs;
    DistinctCount(ptrs);
  }

  lemma {:induction false} DistinctCount(ptrs: seq<int>)
    requires Distinct(ptrs)
    ensures |set p | p in ptrs| == |ptrs|
  {
    if ptrs != [] {
      var n := |ptrs| - 1;
      DistinctCount(ptrs[..n]);
      assert (set p | p in ptrs) == (set p | p in ptrs[..n]) + {ptrs[n]};
    }
  }

  /** The order of the slots does not matter. */
  lemma TracksMoved(bs: seq<Block>, ptrs: seq<int>, j: nat, p: int)
    requires j < |ptrs| && Tracks(bs, ptrs[..j] + ptrs[j + 1..] + [p])
    ensures Tracks(bs, ptrs[j := p])
  {
    var moved, updated := ptrs[..j] + ptrs[j + 1..] + [p], ptrs[j := p];
    forall q
      ensures q in updated <==> q in moved
    {
      if q in moved {
        var k :| 0 <= k < |moved| && moved[k] == q;
        assert updated[if k < j then k else if k < |moved| - 1 then k + 1 else j] == q;
      }
      if q in updated {
        var k :| 0 <= k < |ptrs| && updated[k] == q;
        assert moved[if k < j then k else if k == j then |moved| - 1 else k - 1] == q;
      }
    }
    forall a, b | 0 <= a < b < |updated|
      ensures updated[a] != updated[b]
    {
      assert moved[if a < j then a else if a == j then |moved| - 1 else a - 1] == updated[a];
      assert moved[if b < j then b else if b == j then |moved| - 1 else b - 1] == updated[b];
    }
  }

  // ----- The client -----

  /** ptr >> 4 * i */
  function Shifted(ptr: nat, i: nat): nat {
    if i == 0 then ptr else Shifted(ptr, i - 1) / 16
  }

  function Digit(ptr: nat, i: nat): bv4 {
    (Shifted(ptr, i) % 16) as bv4
  }

  predicate BitSet(digit: bv4, k: nat)
    requires k < 4
  {
    digit & (if k == 0 then 1 else if k == 1 then 2 else if k == 2 then 4 else 8) != 0
  }

  lemma XorBits(a: bv4, b: bv4)
    ensures forall k :: 0 <= k < 4 ==> BitSet(a ^ b, k) == (BitSet(a, k) != BitSet(b, k))
  {
  }

  /** How many of the lowest n hexadecimal digits of ptr have bit k set. */
  function Column(ptr: nat, k: nat, n: nat): nat
    requires k < 4
  {
    if n == 0 then 0 else Column(ptr, k, n - 1) + (if BitSet(Digit(ptr, n - 1), k) then 1 else 0)
  }

  lemma DivTwice(n: nat, d: nat)
    requires d == 0x10 || d == 0x100 || d == 0x1000 || d == 0x1_0000 || d == 0x10_0000 || d == 0x100_0000
    ensures n / d / 16 == n / (16 * d)
  {
  }

  /** The eight digits, as numbers. */
  lemma DigitNumbers(ptr: nat)
    ensures Digit(ptr, 0) == (ptr % 16) as bv4 && Digit(ptr, 1) == (ptr / 0x10 % 16) as bv4
    ensures Digit(ptr, 2) == (ptr / 0x100 % 16) as bv4 && Digit(ptr, 3) == (ptr / 0x1000 % 16) as bv4
    ensures Digit(ptr, 4) == (ptr / 0x1_0000 % 16) as bv4 && Digit(ptr, 5) == (ptr / 0x10_0000 % 16) as bv4
    ensures Digit(ptr, 6) == (ptr / 0x100_0000 % 16) as bv4 && Digit(ptr, 7) == (ptr / 0x1000_0000 % 16) as bv4
  {
    DivTwice(ptr, 0x10);
    DivTwice(ptr, 0x100);
    DivTwice(ptr, 0x1000);
    DivTwice(ptr, 0x1_0000);
    DivTwice(ptr, 0x10_0000);
    DivTwice(ptr, 0x100_0000);
    assert Shifted(ptr, 1) == ptr / 0x10 && Shifted(ptr, 2) == ptr / 0x100 && Shifted(ptr, 3) == ptr / 0x1000;
    assert Shifted(ptr, 4) == ptr / 0x1_0000 && Shifted(ptr, 5) == ptr / 0x10_0000;
    assert Shifted(ptr, 6) == ptr / 0x100_0000 && Shifted(ptr, 7) == ptr / 0x1000_0000;
  }

  /** Exclusive-or of the lowest n digits. */
  function XorUpTo(ptr: nat, n: nat): bv4 {
    if n == 0 then 0 else XorUpTo(ptr, n - 1) ^ Digit(ptr, n - 1)
  }

  lemma XorStep(ptr: nat, n: nat)
    ensures XorUpTo(ptr, n + 1) == XorUpTo(ptr, n) ^ Digit(ptr, n)
  {
  }

  lemma XorFour(ptr: nat)
    ensures XorUpTo(ptr, 4) == Digit(ptr, 0) ^ Digit(ptr, 1) ^ Digit(ptr, 2) ^ Digit(ptr, 3)
  {
    XorStep(ptr, 0);
    XorStep(ptr, 1);
    XorStep(ptr, 2);
    XorStep(ptr, 3);
    assert 0 ^ Digit(ptr, 0) == Digit(ptr, 0);
  }

  lemma XorDigits(ptr: nat)
    ensures XorUpTo(ptr, 8) == Digit(ptr, 0) ^ Digit(ptr, 1) ^ Digit(ptr, 2) ^ Digit(ptr, 3) ^ Digit(ptr, 4) ^
      Digit(ptr, 5) ^ Digit(ptr, 6) ^ Digit(ptr, 7)
  {
    XorFour(ptr);
    XorStep(ptr, 4);
    XorStep(ptr, 5);
    XorStep(ptr, 6);
    XorStep(ptr, 7);
  }

  /** The client's reduction in numbers: the eight digits of a 32-bit pointer. */
  lemma XorEight(ptr: nat)
    ensures XorUpTo(ptr, 8) ==
      (ptr % 16) as bv4 ^ (ptr / 0x10 % 16) as bv4 ^ (ptr / 0x100 % 16) as bv4 ^ (ptr / 0x1000 % 16) as bv4 ^
      (ptr / 0x1_0000 % 16) as bv4 ^ (ptr / 0x10_0000 % 16) as bv4 ^ (ptr / 0x100_0000 % 16) as bv4 ^
      (ptr / 0x1000_0000 % 16) as bv4
  {
    XorDigits(ptr);
    DigitNumbers(ptr);
  }

  /** Exclusive-or of the eight hexadecimal digits of a pointer: each bit is the parity of its column. */
  method ReduceTo4Bit(ptr: nat) returns (res: bv4)
    ensures res == XorUpTo(ptr, 8)
    ensures forall k :: 0 <= k < 4 ==> BitSet(res, k) == (Column(ptr, k, 8) % 2 == 1)
  {
    res := 0;
    for i := 0 to 8
      invariant res == XorUpTo(ptr, i)
      invariant forall k :: 0 <= k < 4 ==> BitSet(res, k) == (Column(ptr, k, i) % 2 == 1)
    {
      XorBits(res, Digit(ptr, i));
      res := res ^ Digit(ptr, i);
    }
  }

  /** Between two rounds: every slot holds a live block of its own, and the top block holds half of the heap. */
  ghost predicate Running(h: Heap, ptrs: array<int>)
    reads h, h.words, ptrs
  {
    && h.Valid() && h.AllLinked() && h.heapInitialized != 1 && h.topBlockFlag == 1
    && h.counter > 15 && !h.scanSkipped
    && ptrs.Length == PTRS_ARRAY_LENGTH
    && Roomy(h.blocks) && Tracks(h.blocks, ptrs[..])
  }

  /** After i of the first allocations only the top block is free, and each took 40 bytes from it. */
  ghost predicate Filling(h: Heap, ptrs: array<int>, i: nat)
    requires i <= ptrs.Length
    reads h, h.words, ptrs
  {
    && h.Valid() && h.AllLinked() && h.topBlockFlag == 1 && !h.scanSkipped
    && h.counter == (if i == 0 then 1 else i) && (h.heapInitialized == 1 <==> i == 0)
    && Roomy(h.blocks) && OnlyTop(h.blocks)
    && h.blocks[|h.blocks| - 1].len == MB_HEXA / 4 - 10 * i
    && Tracks(h.blocks, ptrs[..i])
  }

  lemma FillPicks(bs: seq<Block>)
    requires Roomy(bs) && OnlyTop(bs)
    ensures Pick(bs, 8) == |bs| - 1 && Served(bs, 8, 1)
  {
    RoomyPicks(bs, 8);
    PickedInReach(bs, 8);
  }

  lemma FillStep(bs: seq<Block>, ptrs: seq<int>, p: int, bs': seq<Block>)
    requires Roomy(bs) && OnlyTop(bs) && bs[|bs| - 1].len >= TOP_RESERVE + 10 && Tracks(bs, ptrs)
    requires Allocated(bs, 8, p, bs')
    ensures p != NULL && Roomy(bs') && OnlyTop(bs') && bs'[|bs'| - 1].len == bs[|bs| - 1].len - 10
    ensures Tracks(bs', ptrs + [p])
  {
    var k := |bs| - 1;
    FillPicks(bs);
    InBounds(bs, k);
    HandsOutFresh(bs, 8, 1);
    TakeWellFormed(bs, k, 8, 1);
    TakeTop(bs, k, 8);
    TakeTracks(bs, ptrs, k, 8);
    TakeShape(bs, k, 8);
  }

  method FillSlot(h: Heap, ptrs: array<int>, i: nat)
    requires i < ptrs.Length == PTRS_ARRAY_LENGTH && ptrs as object != h.words && Filling(h, ptrs, i)
    modifies h, h.words, ptrs
    ensures Filling(h, ptrs, i + 1)
  {
    ghost var bs := h.blocks;
    FillPicks(bs);
    WalkPicks(h.words[..], bs, 1, 8);
    assert Need(0x20) == 8;
    var p := h.Malloc(0x20);
    FillStep(bs, ptrs[..i], p, h.blocks);
    ptrs[i] := p;
    assert ptrs[..i + 1] == ptrs[..i] + [p];
  }

  method InitPtrsArray(h: Heap, ptrs: array<int>)
    requires ptrs.Length == PTRS_ARRAY_LENGTH && ptrs as object != h.words && Filling(h, ptrs, 0)
    modifies h, h.words, ptrs
    ensures Running(h, ptrs)
  {
    for i := 0 to PTRS_ARRAY_LENGTH
      invariant Filling(h, ptrs, i)
    {
      FillSlot(h, ptrs, i);
    }
    assert ptrs[..] == ptrs[..PTRS_ARRAY_LENGTH];
  }

  method FreeLive(h: Heap, ptr: int, ghost i: nat)
    requires h.Valid() && h.AllLinked() && h.heapInitialized != 1 && TopFree(h.blocks) && h.counter > 15
    requires i < |h.blocks| && !h.blocks[i].free && ptr == Addr(h.blocks[i].at) != NULL
    modifies h, h.words
    ensures h.Valid() && h.AllLinked() && h.blocks == Release(old(h.blocks), i)
    ensures TestsFree(h.words[..], h.blocks, ptr) && h.scanSkipped == old(h.scanSkipped)
    ensures h.heapInitialized != 1 && h.topBlockFlag == 1 && h.counter == old(h.counter)
  {
    assert Freeable(h.words[..], h.blocks, i, ptr);
    h.Free(ptr);
  }

  /** The second `free` of a pointer changes nothing. */
  method FreeAgain(h: Heap, ptr: int)
    requires h.Valid() && h.heapInitialized != 1 && TestsFree(h.words[..], h.blocks, ptr)
    modifies h, h.words
    ensures h.Valid() && h.words[..] == old(h.words[..]) && h.blocks == old(h.blocks)
    ensures h.heapInitialized != 1 && h.topBlockFlag == old(h.topBlockFlag) && h.counter == old(h.counter)
    ensures h.counter > 15 ==> h.scanSkipped == old(h.scanSkipped)
  {
    h.Free(ptr);
  }

  /** Frees a slot's pointer, a second time when its digits say so, and derives the next size. */
  method FreeSlot(h: Heap, ptr: int, ghost all: seq<int>, ghost slot: nat) returns (nbytes: int)
    requires h.Valid() && h.AllLinked() && h.heapInitialized != 1 && h.counter > 15
    requires Roomy(h.blocks) && Tracks(h.blocks, all) && |all| == PTRS_ARRAY_LENGTH
    requires slot < |all| && ptr == all[slot]
    modifies h, h.words
    ensures h.Valid() && h.AllLinked() && h.heapInitialized != 1 && h.topBlockFlag == 1 && h.counter > 15
    ensures h.scanSkipped == old(h.scanSkipped)
    ensures Roomy(h.blocks) && |Live(h.blocks)| < PTRS_ARRAY_LENGTH
    ensures Tracks(h.blocks, all[..slot] + all[slot + 1..])
    ensures var x :=
        (ptr % 16) as bv4 ^ (ptr / 0x10 % 16) as bv4 ^ (ptr / 0x100 % 16) as bv4 ^ (ptr / 0x1000 % 16) as bv4 ^
        (ptr / 0x1_0000 % 16) as bv4 ^ (ptr / 0x10_0000 % 16) as bv4 ^ (ptr / 0x100_0000 % 16) as bv4 ^
        (ptr / 0x1000_0000 % 16) as bv4;
      nbytes == 0x111 * if x == 0 then 1 else x as int
  {
    ghost var k := StepReleases(h.blocks, all, slot);
    FreeLive(h, ptr, k);
    var digits := ReduceTo4Bit(ptr);
    XorEight(ptr);
    var x := digits as int;
    if x == 0 {
      x := 1;
    } else if x == 0xf {
      FreeAgain(h, ptr);
    }
    nbytes := x * 256 + x * 16 + x;
  }

  /** One round: a slot is freed, now and then twice, and given a new block. */
  method Round(h: Heap, ptrs: array<int>, i: nat)
    requires ptrs as object != h.words && Running(h, ptrs)
    modifies h, h.words, ptrs
    ensures Running(h, ptrs)
    ensures ptrs[i % 64] != NULL && forall j :: 0 <= j < 64 && j != i % 64 ==> ptrs[j] == old(ptrs[j])
    ensures var ptr := old(ptrs[i % 64]);
      var x :=
        (ptr % 16) as bv4 ^ (ptr / 0x10 % 16) as bv4 ^ (ptr / 0x100 % 16) as bv4 ^ (ptr / 0x1000 % 16) as bv4 ^
        (ptr / 0x1_0000 % 16) as bv4 ^ (ptr / 0x10_0000 % 16) as bv4 ^ (ptr / 0x100_0000 % 16) as bv4 ^
        (ptr / 0x1000_0000 % 16) as bv4;
      var nbytes := 0x111 * if x == 0 then 1 else x as int;
      exists b :: b in Live(h.blocks) && Addr(b.at) == ptrs[i % 64] && nbytes <= 4 * b.len <= nbytes + 11
  {
    var slot := i % PTRS_ARRAY_LENGTH;
    ghost var all := ptrs[..];
    var nbytes := FreeSlot(h, ptrs[slot], all, slot);
    FillAgain(h, ptrs, slot, nbytes);
  }

  /** A slot that was freed gets a new block of the size asked for. */
  method FillAgain(h: Heap, ptrs: array<int>, slot: nat, nbytes: int)
    requires h.Valid() && h.AllLinked() && h.heapInitialized != 1 && h.topBlockFlag == 1
    requires h.counter > 15 && !h.scanSkipped && ptrs as object != h.words
    requires slot < ptrs.Length == PTRS_ARRAY_LENGTH && 0x111 <= nbytes <= 0xfff
    requires Roomy(h.blocks) && |Live(h.blocks)| < PTRS_ARRAY_LENGTH
    requires Tracks(h.blocks, ptrs[..][..slot] + ptrs[..][slot + 1..])
    modifies h, h.words, ptrs
    ensures Running(h, ptrs) && ptrs[slot] != NULL
    ensures forall j :: 0 <= j < PTRS_ARRAY_LENGTH && j != slot ==> ptrs[j] == old(ptrs[j])
    ensures Granted(h.blocks, ptrs[slot], nbytes)
  {
    ghost var all := ptrs[..];
    StepTakes(h.blocks, all[..slot] + all[slot + 1..], Need(nbytes));
    WalkPicks(h.words[..], h.blocks, 1, Need(nbytes));
    var ptr2 := h.Malloc(nbytes);
    TracksMoved(h.blocks, all, slot, ptr2);
    ptrs[slot] := ptr2;
    assert ptrs[..] == all[slot := ptr2];
  }

  /** The client from its first allocation, stopped after any number of rounds. */
  method MallocLoop(rounds: nat) returns (h: Heap, ptrs: array<int>)
    ensures Running(h, ptrs)
    ensures ptrs.Length == 64 && |Live(h.blocks)| == 64 && TopFree(h.blocks)
    ensures 4 * h.blocks[|h.blocks| - 1].len >= 0x8_0000
  {
    h := new Heap();
    ptrs := new int[PTRS_ARRAY_LENGTH];
    assert Live(h.blocks) == {};
    InitPtrsArray(h, ptrs);
    for i := 0 to rounds
      invariant fresh(h) && fresh(h.words) && fresh(ptrs) && ptrs as object != h.words
      invariant Running(h, ptrs)
    {
      Round(h, ptrs, i);
    }
    LiveSize(h.blocks, ptrs[..]);
  }
}
