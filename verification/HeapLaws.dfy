/** What the allocator promises over sequences of calls, read off the block sequences its methods leave. */
module HeapLaws {
  import opened HeapBlocks
  import opened HeapWords
  import opened Machine
  import opened HeapAllocator

  // ----- The heap is determined by its live blocks -----

  /** A coalesced heap is canonical: no history but the set of live blocks shows in it. */
  lemma Canonical(bs: seq<Block>, cs: seq<Block>)
    requires Tiled(bs) && Coalesced(bs) && Tiled(cs) && Coalesced(cs)
    requires Live(bs) == Live(cs)
    ensures bs == cs
  {
    CanonicalUpTo(bs, cs, |bs|);
    if |cs| > |bs| {
      InBounds(cs, |cs| - 1);
      Ordered(cs, |bs| - 1, |cs| - 1);
    }
  }

  lemma {:induction false} CanonicalUpTo(bs: seq<Block>, cs: seq<Block>, n: nat)
    requires Tiled(bs) && Coalesced(bs) && Tiled(cs) && Coalesced(cs)
    requires Live(bs) == Live(cs) && n <= |bs|
    ensures n <= |cs| && forall k :: 0 <= k < n ==> bs[k] == cs[k]
  {
    if n > 0 {
      CanonicalUpTo(bs, cs, n - 1);
      if n > 1 {
        assert Joins(bs, n - 2);
        InBounds(bs, n - 1);
        if n - 1 < |cs| { assert Joins(cs, n - 2); }
      }
      SameBlock(bs, cs, n - 1);
      SameBlock(cs, bs, n - 1);
    }
  }

  /** Two coalesced heaps with the same live blocks: where both have a block start, cs[k] covers bs[k]. */
  lemma SameBlock(bs: seq<Block>, cs: seq<Block>, k: nat)
    requires Tiled(bs) && Coalesced(bs) && Tiled(cs) && Coalesced(cs) && Live(bs) == Live(cs)
    requires k < |bs| && k < |cs| && bs[k].at == cs[k].at
    ensures !bs[k].free ==> cs[k] == bs[k]
    ensures bs[k].free && cs[k].free ==> bs[k].len <= cs[k].len
  {
    if !bs[k].free {
      assert bs[k] in Live(cs);
      AtOnce(cs, bs[k], k);
    } else if cs[k].free && cs[k].len < bs[k].len {
      InBounds(bs, k);
      assert k + 1 < |cs|;
      assert Apart(cs, k) && Joins(cs, k);
      assert cs[k + 1] in Live(bs);
      var j :| 0 <= j < |bs| && bs[j] == cs[k + 1];
      if j < k { Ordered(bs, j, k); }
      if j > k { Ordered(bs, k, j); }
    }
  }

  /** Only one block of a tiling starts at a given place. */
  lemma AtOnce(bs: seq<Block>, b: Block, k: nat)
    requires Tiled(bs) && b in bs && k < |bs| && bs[k].at == b.at
    ensures bs[k] == b
  {
    var j :| 0 <= j < |bs| && bs[j] == b;
    if j < k { Ordered(bs, j, k); }
    if k < j { Ordered(bs, k, j); }
  }

  /** No two blocks share a word, headers included. */
  lemma Disjoint(bs: seq<Block>, b: Block, c: Block)
    requires Tiled(bs) && b in bs && c in bs && b != c
    ensures End(b) <= c.at || End(c) <= b.at
  {
    var i :| 0 <= i < |bs| && bs[i] == b;
    var j :| 0 <= j < |bs| && bs[j] == c;
    if i < j { Ordered(bs, i, j); } else { Ordered(bs, j, i); }
  }

  // ----- First fit -----

  /** With the top block free, the search finds the lowest free block that is large enough, and fails only if there
      is none. */
  lemma FirstFitLeast(bs: seq<Block>, need: int)
    requires TopFree(bs)
    ensures var i := Pick(bs, need);
      && (i < |bs| ==> bs[i].free && bs[i].len >= need)
      && (forall j :: 0 <= j < i ==> !(bs[j].free && bs[j].len >= need))
  {
    forall j | 0 <= j < Pick(bs, need)
      ensures !(bs[j].free && bs[j].len >= need)
    {
      FirstFitPasses(bs, need, 0, j);
    }
  }

  /** What a request hands out: one block of the right size, whose place was nobody's just when the top block is
      free. */
  lemma HandsOutFresh(bs: seq<Block>, need: int, flag: int)
    requires WellFormed(bs) && 1 <= need && Served(bs, need, flag) && Pick(bs, need) < |bs|
    ensures var i := Pick(bs, need);
      var b := Taken(bs[i], need)[0];
      && need <= b.len <= need + 2 && b.at == bs[i].at
      && WellFormed(Take(bs, i, need)) && Live(Take(bs, i, need)) == Live(bs) - {bs[i]} + {b}
      && ((forall c :: c in Live(bs) ==> c.at != b.at) <==> TopFree(bs))
      && (TopFree(bs) ==> Live(Take(bs, i, need)) == Live(bs) + {b} && b !in Live(bs))
  {
    var i := Pick(bs, need);
    TakeWellFormed(bs, i, need, flag);
    TakeLive(bs, i, need);
    if TopFree(bs) {
      forall c | c in Live(bs)
        ensures c.at != bs[i].at
      {
        if c.at == bs[i].at { AtOnce(bs, c, i); }
      }
    } else {
      assert bs[i] in Live(bs);
    }
  }

  // ----- Where the scans of the code end -----

  /** The header at which a scan upwards from the word `at` stops: one with the free bit, the top block if the scan
      looks for its mark, or none up to the heap's end. */
  ghost function ScanUp(m: seq<Word>, at: int, orTop: bool): int
    decreases HEAP_END - at
  {
    if at >= HEAP_END || HasFree(W(m, at)) || (orTop && HasTop(W(m, at))) then at
    else ScanUp(m, at + 2 + SizeBits(W(m, at)) / 4, orTop)
  }

  /** The header at bs[k] has the block's size and free bit; of the marks, only the top block may have one. */
  ghost predicate HeaderReads(m: seq<Word>, bs: seq<Block>, k: nat)
    requires k < |bs|
  {
    HeaderAt(m, bs[k].at) == bs[k] && (k < |bs| - 1 ==> !HasTop(W(m, bs[k].at)))
  }

  function Place(bs: seq<Block>, k: nat): int {
    if k < |bs| then bs[k].at else HEAP_END
  }

  lemma {:induction false} ScanReads(m: seq<Word>, bs: seq<Block>, k: nat, orTop: bool)
    requires Tiled(bs) && k <= |bs| && forall j :: k <= j < |bs| ==> HeaderReads(m, bs, j)
    ensures ScanUp(m, Place(bs, k), orTop) ==
      if NextFree(bs, k) == |bs| && k < |bs| && orTop && HasTop(W(m, bs[|bs| - 1].at)) then bs[|bs| - 1].at
      else Place(bs, NextFree(bs, k))
    decreases |bs| - k
  {
    if k < |bs| {
      InBounds(bs, k);
      assert HeaderReads(m, bs, k);
      assert k < |bs| - 1 ==> Joins(bs, k);
      ScanReads(m, bs, k + 1, orTop);
    }
  }

  lemma ScanStops(m: seq<Word>, bs: seq<Block>, k: nat, orTop: bool)
    requires Tiled(bs) && k < |bs| && forall j :: k <= j < |bs| ==> HeaderReads(m, bs, j)
    ensures ScanUp(m, bs[k].at, orTop) < HEAP_END <==>
      NextFree(bs, k) < |bs| || (orTop && HasTop(W(m, bs[|bs| - 1].at)))
  {
    ScanReads(m, bs, k, orTop);
    InBounds(bs, |bs| - 1);
    if NextFree(bs, k) < |bs| { InBounds(bs, NextFree(bs, k)); }
  }

  /** The scan from the free block below block i for the next free one, and the scan from the heap's start for a free
      block or the top mark, both end within the heap. */
  ghost predicate ScansStop(m: seq<Word>, bs: seq<Block>, i: nat)
    requires i < |bs|
  {
    && (PrevFree(bs, i) >= 0 ==> ScanUp(m, End(bs[PrevFree(bs, i)]), false) < HEAP_END)
    && ScanUp(m, 0, true) < HEAP_END
  }

  /** The memory in which those scans start: the headers after block i was handed out, its control word as the code left
      it. */
  ghost predicate CarvedFor(m: seq<Word>, bs: seq<Block>, i: nat, need: int, flag: int)
    requires i < |bs|
  {
    var bs', rest := Take(bs, i, need), 4 * bs[i].len - 4 * need;
    && |bs'| > i && Ctrls(m, bs', 0, i) && Ctrls(m, bs', i + 1, |bs'|)
    && W(m, bs[i].at) == ReservedWord(4 * need, rest, FlagAfter(i == |bs| - 1, rest, flag))
  }

  lemma CtrlReads(m: seq<Word>, bs: seq<Block>, k: nat)
    requires k < |bs| && bs[k].len >= 0 && CtrlAt(m, bs, k)
    ensures HeaderReads(m, bs, k) && (HasTop(W(m, bs[k].at)) <==> k == |bs| - 1)
  {
    WordParts(W(m, bs[k].at), bs[k].len, CtrlWord(bs[k], k == |bs| - 1) - 4 * bs[k].len);
  }

  lemma ReservedReads(m: seq<Word>, b: Block, need: int, flag: int)
    requires 1 <= need <= b.len
    requires W(m, b.at) == ReservedWord(4 * need, 4 * b.len - 4 * need, flag)
    ensures HeaderAt(m, b.at) == Taken(b, need)[0]
    ensures HasTop(W(m, b.at)) <==> b.len - need < 3 && flag == 2
  {
    if b.len - need < 3 {
      WordParts(W(m, b.at), b.len, if flag == 2 then 1 else 0);
    } else {
      WordParts(W(m, b.at), need, 0);
    }
  }

  lemma {:induction false} CarvedReads(m: seq<Word>, bs: seq<Block>, i: nat, need: int, flag: int, k: nat)
    requires Tiled(bs) && i < |bs| && 1 <= need <= bs[i].len && (i < |bs| - 1 ==> flag == 1)
    requires CarvedFor(m, bs, i, need, flag) && k < |Take(bs, i, need)|
    ensures HeaderReads(m, Take(bs, i, need), k)
    ensures var bs' := Take(bs, i, need);
      k == i == |bs'| - 1 ==> (HasTop(W(m, bs'[k].at)) <==> bs[i].len == need || flag == 2)
  {
    TakeShape(bs, i, need);
    var bs', rest := Take(bs, i, need), 4 * bs[i].len - 4 * need;
    if k == i {
      ReservedReads(m, bs[i], need, FlagAfter(i == |bs| - 1, rest, flag));
    } else {
      assert CtrlAt(m, bs', k);
      CtrlReads(m, bs', k);
    }
  }

  lemma {:induction false} ScansStopOn(m: seq<Word>, bs: seq<Block>, i: nat, bs': seq<Block>)
    requires Tiled(bs') && i < |bs| && i < |bs'| && SamePrefix(bs, bs', i)
    requires forall k :: 0 <= k < |bs'| ==> HeaderReads(m, bs', k)
    ensures ScansStop(m, bs, i) <==>
      && (PrevFree(bs, i) >= 0 ==> NextFree(bs', PrevFree(bs, i) + 1) < |bs'|)
      && (NextFree(bs', 0) < |bs'| || HasTop(W(m, bs'[|bs'| - 1].at)))
  {
    var p := PrevFree(bs, i);
    ScanStops(m, bs', 0, true);
    ScanStops(m, bs', p + 1, false);
    if p >= 0 { assert Joins(bs', p) && bs'[p] == bs[p]; }
  }

  /** What is free above the free block below block i: the top block, or nothing if block i became a reserved top. */
  lemma {:induction false} FreeAbove(bs: seq<Block>, i: nat, bs': seq<Block>)
    requires i < |bs| && i < |bs'| && SamePrefix(bs, bs', i)
    requires TopFree(bs') || (|bs'| == i + 1 && !bs'[i].free)
    ensures var p := PrevFree(bs, i);
      && (NextFree(bs', p + 1) < |bs'| <==> TopFree(bs'))
      && (TopFree(bs') || p == -1 ==> (NextFree(bs', 0) < |bs'| <==> TopFree(bs')))
  {
    var p := PrevFree(bs, i);
    PrevFreePrefix(bs, bs', i);
    if TopFree(bs') {
      if NextFree(bs', 0) == |bs'| { NextFreeSkips(bs', 0, |bs'| - 1); }
      if NextFree(bs', p + 1) == |bs'| { NextFreeSkips(bs', p + 1, |bs'| - 1); }
    } else {
      NextFreeUpTo(bs', p + 1, |bs'|);
    }
  }

  /** A granted request is served exactly when those scans, run on the memory it leaves, end within the heap. */
  lemma {:induction false} ServedIffScansStop(m: seq<Word>, bs: seq<Block>, i: nat, need: int, flag: int)
    requires WellFormed(bs) && i < |bs| && 1 <= need <= bs[i].len
    requires i < |bs| - 1 ==> bs[i].free && flag == 1
    requires CarvedFor(m, bs, i, need, flag)
    ensures ServedAt(bs, i, need, flag) <==> ScansStop(m, bs, i)
  {
    var bs' := Take(bs, i, need);
    TakeShape(bs, i, need);
    SpliceTiled(bs, i, Taken(bs[i], need), i + 1);
    forall k | 0 <= k < |bs'|
      ensures HeaderReads(m, bs', k)
    {
      CarvedReads(m, bs, i, need, flag, k);
    }
    CarvedReads(m, bs, i, need, flag, i);
    ScansStopOn(m, bs, i, bs');
    FreeAbove(bs, i, bs');
  }

  lemma HeadersRead(m: seq<Word>, bs: seq<Block>)
    requires Tiled(bs) && Headed(m, bs)
    ensures forall k :: 0 <= k < |bs| ==> HeaderReads(m, bs, k)
  {
    forall k | 0 <= k < |bs|
      ensures HeaderReads(m, bs, k)
    {
      assert CtrlAt(m, bs, k);
      CtrlReads(m, bs, k);
    }
  }

  lemma {:induction false} NextAfterRelease(bs: seq<Block>, i: nat, lo: nat, hi: nat, bs': seq<Block>)
    requires WellFormed(bs) && i < |bs| && lo < hi < |bs| && Spliced(bs, lo, hi, bs', lo + 1)
    ensures NextFree(bs', lo + 1) < |bs'| <==> TopFree(bs)
  {
    var n := NextFree(bs', lo + 1);
    assert bs'[|bs'| - 1] == bs[|bs| - 1];
    if n == |bs'| && TopFree(bs) { NextFreeSkips(bs', lo + 1, |bs'| - 1); }
    if n < |bs'| { assert bs'[n] == bs[n - lo - 1 + hi]; }
  }

  /** After block i was freed and joined with its neighbours, the scan for the next free block ends within the heap
      exactly if the top block is free; none is made if the freed block has become the top itself. */
  lemma {:induction false} FreeScanStops(m: seq<Word>, bs: seq<Block>, i: nat)
    requires WellFormed(bs) && i < |bs| && !bs[i].free && Headed(m, Release(bs, i))
    requires Low(bs, i) + 1 < |Release(bs, i)|
    ensures ScanUp(m, End(Release(bs, i)[Low(bs, i)]), false) < HEAP_END <==> TopFree(bs)
  {
    var lo, hi, bs' := Low(bs, i), High(bs, i), Release(bs, i);
    ReleaseJoins(bs, i);
    Run(bs, i);
    SpliceTiled(bs, lo, [bs'[lo]], hi);
    HeadersRead(m, bs');
    assert Joins(bs', lo);
    ScanStops(m, bs', lo + 1, false);
    NextAfterRelease(bs, i, lo, hi, bs');
  }

  /** A request that leaves the top block 4 bytes to spare: the top mark is lost, and the scan for it leaves the
      heap. */
  method TopMarkLost() returns (h: Heap)
    ensures !Served(TwoBlocks(true), Need(0xF_FFF0), 1)
    ensures ScanUp(h.words[..], 0, true) >= HEAP_END
  {
    var p;
    h, p := FirstSmall();
    ghost var bs, need := h.blocks, Need(0xF_FFF0);
    TakeShape(bs, 1, need);
    SpliceTiled(bs, 1, Taken(bs[1], need), 2);
    var prev := h.Carve(HEAP_BASE + 12, 0xF_FFF0, bs, 1, need, Take(bs, 1, need));
    ServedIffScansStop(h.words[..], bs, 1, need, 1);
  }

  // ----- malloc and free undo each other; frees commute -----

  /** Freeing what was just allocated gives back the same blocks, whether a part of a block was handed out, a whole one,
      or the top block. */
  lemma MallocFree(bs: seq<Block>, need: int, flag: int)
    requires WellFormed(bs) && TopFree(bs) && 1 <= need && Served(bs, need, flag) && Pick(bs, need) < |bs|
    ensures var i := Pick(bs, need); Release(Take(bs, i, need), i) == bs
  {
    var i := Pick(bs, need);
    var cs := Take(bs, i, need);
    HandsOutFresh(bs, need, flag);
    TakeWellFormed(bs, i, need, flag);
    ReleaseWellFormed(cs, i);
    ReleaseLive(cs, i);
    Canonical(Release(cs, i), bs);
  }

  function IndexOf(bs: seq<Block>, b: Block): (i: nat)
    requires b in bs
    ensures i < |bs| && bs[i] == b
  {
    if bs[0] == b then 0 else 1 + IndexOf(bs[1..], b)
  }

  function ReleaseBlock(bs: seq<Block>, b: Block): seq<Block>
    requires b in bs
  {
    Release(bs, IndexOf(bs, b))
  }

  lemma ReleaseBlockLive(bs: seq<Block>, b: Block)
    requires WellFormed(bs) && b in Live(bs) && (TopFree(bs) || b == bs[|bs| - 1])
    ensures WellFormed(ReleaseBlock(bs, b)) && TopFree(ReleaseBlock(bs, b))
    ensures Live(ReleaseBlock(bs, b)) == Live(bs) - {b}
  {
    var i := IndexOf(bs, b);
    if b == bs[|bs| - 1] && i < |bs| - 1 { Ordered(bs, i, |bs| - 1); }
    ReleaseWellFormed(bs, i);
    ReleaseLive(bs, IndexOf(bs, b));
  }

  lemma {:induction false} FreesCommute(bs: seq<Block>, b: Block, c: Block)
    requires WellFormed(bs) && TopFree(bs) && b in Live(bs) && c in Live(bs) && b != c
    ensures c in ReleaseBlock(bs, b) && b in ReleaseBlock(bs, c)
    ensures ReleaseBlock(ReleaseBlock(bs, b), c) == ReleaseBlock(ReleaseBlock(bs, c), b)
  {
    ReleaseBlockLive(bs, b);
    ReleaseBlockLive(bs, c);
    assert c in Live(ReleaseBlock(bs, b)) && b in Live(ReleaseBlock(bs, c));
    ReleaseBlockLive(ReleaseBlock(bs, b), c);
    ReleaseBlockLive(ReleaseBlock(bs, c), b);
    Canonical(ReleaseBlock(ReleaseBlock(bs, b), c), ReleaseBlock(ReleaseBlock(bs, c), b));
  }

  ghost predicate Enumerates(order: seq<Block>, s: set<Block>) {
    && (forall b :: b in s <==> b in order)
    && (forall i, j :: 0 <= i < j < |order| ==> order[i] != order[j])
  }

  // ----- Runs of calls -----

  datatype Call = Allocate(nbytes: int) | Deallocate(ptr: int)

  /** What of the allocator's state a run depends on. linked: the links are known to be right. behind: the word behind
      the heap, which is not the allocator's. */
  datatype State = State(blocks: seq<Block>, started: bool, counter: int, flag: int, linked: bool, freed: set<int>,
                         behind: Word)

  /** While the scans are off, `linked` says exactly whether only the top block is free. */
  ghost predicate Sound(s: State) {
    && WellFormed(s.blocks) && (!s.started ==> s.blocks == FreshBlocks() && s.freed == {})
    && (!OnlyTop(s.blocks) ==> s.flag == 1)
    && (s.counter <= 15 ==> (s.linked <==> OnlyTop(s.blocks)))
    && (s.freed != {} ==> TopFree(s.blocks))
  }

  /** The state of an allocator that was never called. */
  function Start(behind: Word): State {
    State(FreshBlocks(), false, 1, 1, true, {}, behind)
  }

  /** Where a search stops: at the first fit or the top block, if the links are right or only the top block is free; at
      the first free block or its neighbour, if every free block links to its neighbour. */
  function Found(s: State, need: int): nat
    requires |s.blocks| > 0
  {
    var bs, k := s.blocks, FirstIndex(s.blocks);
    if s.linked || k == |bs| - 1 then
      if Pick(bs, need) < |bs| then Pick(bs, need) else |bs| - 1
    else if bs[k].len >= need then k
    else k + 1
  }

  /** The contracts of `malloc` and `free`, `counter` and the links included. On wrong links a request must fit where
      the search stops, because it would go on in a live block's payload. */
  ghost predicate Admitted(s: State, c: Call)
    requires Sound(s)
  {
    match c
    case Allocate(nbytes) =>
      var i, need := Found(s, Need(nbytes)), Need(nbytes);
      && 0 < nbytes <= 0xFFFF_FFFC
      && if !s.started then RoundUp(nbytes) + 12 <= MB_HEXA
        else
          && (s.linked || OnlyTop(s.blocks) || (s.counter <= 15 && s.blocks[i].len >= need))
          && (s.blocks[i].len >= need ==> ServedAt(s.blocks, i, need, s.flag))
    case Deallocate(ptr) =>
      || ptr == NULL
      || (s.started && (ptr in s.freed || Releasable(s.blocks, BlockAt(s.blocks, ptr, 0), s.behind)))
  }

  ghost function Does(s: State, c: Call): State
    requires Sound(s)
  {
    match c
    case Allocate(nbytes) =>
      var i, need := Found(s, Need(nbytes)), Need(nbytes);
      if i < |s.blocks| && s.blocks[i].len >= need then Hands(s, i, need) else s
    case Deallocate(ptr) =>
      var i := BlockAt(s.blocks, ptr, 0);
      if ptr == NULL then s
      else if Releasable(s.blocks, i, s.behind) then TakesBack(s, i, ptr)
      else s.(freed := s.freed + {ptr})
  }

  ghost function Hands(s: State, i: nat, need: int): State
    requires i < |s.blocks|
  {
    var bs' := Take(s.blocks, i, need);
    s.(blocks := bs', started := true, counter := s.counter + (if s.started then 1 else 0),
       flag := FlagAnswered(s.blocks, i, need, s.flag),
       linked := if s.counter <= 15 then |bs'| > 0 && OnlyTop(bs') else s.linked || OnlyTop(s.blocks), freed := {})
  }

  ghost function TakesBack(s: State, i: nat, ptr: int): State
    requires i < |s.blocks|
  {
    var bs' := Release(s.blocks, i);
    s.(blocks := bs', flag := if |s.blocks| == 1 then s.flag else 1,
       linked := OnlyTop(bs') || (s.linked && (s.counter > 15 || FreedAtTop(s.blocks, i))), freed := s.freed + {ptr})
  }

  /** What the caller gets: the place where the search stops, or NULL. */
  ghost function Answer(s: State, c: Call): int
    requires Sound(s)
  {
    match c
    case Allocate(nbytes) =>
      var i := Found(s, Need(nbytes));
      if i < |s.blocks| && s.blocks[i].len >= Need(nbytes) then Addr(s.blocks[i].at) else NULL
    case Deallocate(_) => NULL
  }

  /** The search of an admitted request stops at a block. */
  lemma FoundInside(s: State, nbytes: int)
    requires Sound(s) && 0 < nbytes
    ensures var i, need := Found(s, Need(nbytes)), Need(nbytes);
      && i < |s.blocks| && (OnlyTop(s.blocks) ==> i == |s.blocks| - 1)
      && (!s.started && RoundUp(nbytes) + 12 <= MB_HEXA ==> i == 0 && ServedAt(s.blocks, i, need, s.flag))
  {
    FirstBelowTop(s.blocks);
    if Pick(s.blocks, Need(nbytes)) < |s.blocks| && OnlyTop(s.blocks) { PickedInReach(s.blocks, Need(nbytes)); }
  }

  lemma ReleaseOnlyTop(bs: seq<Block>, i: nat)
    requires WellFormed(bs) && OnlyTop(bs) && i < |bs| && !bs[i].free && FreedAtTop(bs, i)
    ensures OnlyTop(Release(bs, i))
  {
    var lo := Low(bs, i);
    ReleaseJoins(bs, i);
    var p := PrevFree(bs, lo);
    if p >= 0 { PrevFreeSkips(bs, |bs| - 1, p); }
  }

  lemma HandsSound(s: State, i: nat, need: int)
    requires Sound(s) && 1 <= need && i < |s.blocks| && need <= s.blocks[i].len && ServedAt(s.blocks, i, need, s.flag)
    requires OnlyTop(s.blocks) ==> i == |s.blocks| - 1
    ensures Sound(Hands(s, i, need))
  {
    TakeWellFormed(s.blocks, i, need, s.flag);
    TakenFlag(s.blocks, i, need, s.flag);
  }

  lemma TakesBackSound(s: State, i: nat, ptr: int)
    requires Sound(s) && Releasable(s.blocks, i, s.behind)
    ensures Sound(TakesBack(s, i, ptr)) || !s.started
  {
    var bs := s.blocks;
    ReleaseWellFormed(bs, i);
    if |bs| == 1 { assert Release(bs, 0) == [bs[0].(free := true)]; }
    if OnlyTop(bs) && FreedAtTop(bs, i) { ReleaseOnlyTop(bs, i); }
  }

  lemma DoesSound(s: State, c: Call)
    requires Sound(s) && Admitted(s, c)
    ensures Sound(Does(s, c))
  {
    match c {
      case Allocate(nbytes) =>
        var i, need := Found(s, Need(nbytes)), Need(nbytes);
        FoundInside(s, nbytes);
        if s.blocks[i].len >= need { HandsSound(s, i, need); }
      case Deallocate(ptr) =>
        var i := BlockAt(s.blocks, ptr, 0);
        if ptr != NULL && Releasable(s.blocks, i, s.behind) { TakesBackSound(s, i, ptr); }
    }
  }

  ghost predicate Runs(s: State, calls: seq<Call>)
    requires Sound(s)
    decreases |calls|
  {
    calls == [] || (Admitted(s, calls[0]) && (DoesSound(s, calls[0]); Runs(Does(s, calls[0]), calls[1..])))
  }

  ghost function After(s: State, calls: seq<Call>): (t: State)
    requires Sound(s) && Runs(s, calls)
    ensures Sound(t)
    decreases |calls|
  {
    if calls == [] then s else DoesSound(s, calls[0]); After(Does(s, calls[0]), calls[1..])
  }

  ghost function Answers(s: State, calls: seq<Call>): seq<int>
    requires Sound(s) && Runs(s, calls)
    decreases |calls|
  {
    if calls == [] then [] else DoesSound(s, calls[0]); [Answer(s, calls[0])] + Answers(Does(s, calls[0]), calls[1..])
  }

  /** Any two runs that leave the same blocks live leave the same heap, free blocks and all. */
  lemma HistoryIndependent(s: State, xs: seq<Call>, t: State, ys: seq<Call>)
    requires Sound(s) && Runs(s, xs) && Sound(t) && Runs(t, ys)
    requires Live(After(s, xs).blocks) == Live(After(t, ys).blocks)
    ensures After(s, xs).blocks == After(t, ys).blocks
  {
    Canonical(After(s, xs).blocks, After(t, ys).blocks);
  }

  /** The frees of some blocks, one after the other. */
  function Frees(order: seq<Block>): seq<Call> {
    if order == [] then [] else [Deallocate(Addr(order[0].at))] + Frees(order[1..])
  }

  lemma RestEnumerates(order: seq<Block>, s: set<Block>)
    requires Enumerates(order, s) && order != []
    ensures Enumerates(order[1..], s - {order[0]})
  {
    forall b
      ensures b in s - {order[0]} <==> b in order[1..]
    {
      assert b in order <==> b == order[0] || b in order[1..];
    }
  }

  /** A heap whose top block is reserved can only be given back from there. */
  ghost predicate CanBegin(s: State, order: seq<Block>)
    requires |s.blocks| > 0
  {
    || TopFree(s.blocks)
    || (order != [] && order[0] == s.blocks[|s.blocks| - 1] && Releasable(s.blocks, |s.blocks| - 1, s.behind))
  }

  /** Freeing all live blocks, in any order and however early, leaves one free block over the whole heap. If the top
      block is reserved, the order must begin with it. */
  lemma {:induction false} FreeingAllEmpties(s: State, order: seq<Block>)
    requires Sound(s) && s.started && Enumerates(order, Live(s.blocks))
    ensures Runs(s, Frees(order)) <==> CanBegin(s, order)
    ensures Runs(s, Frees(order)) ==> After(s, Frees(order)).blocks == FreshBlocks()
    decreases |order|
  {
    var bs := s.blocks;
    if order == [] {
      assert bs[|bs| - 1] !in Live(bs);
      assert Live(bs) == {} && Live(FreshBlocks()) == {};
      Canonical(bs, FreshBlocks());
    } else {
      var b, c := order[0], Deallocate(Addr(order[0].at));
      var i := FirstFreed(s, order);
      assert Frees(order)[0] == c && Frees(order)[1..] == Frees(order[1..]);
      if CanBegin(s, order) {
        DoesSound(s, c);
        ReleaseBlockLive(bs, b);
        RestEnumerates(order, Live(bs));
        FreeingAllEmpties(Does(s, c), order[1..]);
      }
    }
  }

  /** The first block of an order, and that its free is admitted exactly if the order can begin so. */
  lemma FirstFreed(s: State, order: seq<Block>) returns (i: nat)
    requires Sound(s) && s.started && order != [] && order[0] in Live(s.blocks)
    ensures i < |s.blocks| && s.blocks[i] == order[0] && i == IndexOf(s.blocks, order[0])
    ensures BlockAt(s.blocks, Addr(order[0].at), 0) == i && Addr(order[0].at) != NULL
    ensures Admitted(s, Deallocate(Addr(order[0].at))) <==> CanBegin(s, order)
    ensures CanBegin(s, order) ==> Releasable(s.blocks, i, s.behind)
  {
    var bs := s.blocks;
    i := IndexOf(bs, order[0]);
    InBounds(bs, i);
    BlockAtFinds(bs, 0, i);
    if i < |bs| - 1 { Ordered(bs, i, |bs| - 1); }
  }

  // ----- The words tell one block sequence and one free list -----

  /** Reads blocks off the control words alone, header by header. */
  ghost function Parse(m: seq<Word>, at: int): seq<Block>
    decreases HEAP_END - at
  {
    if at >= HEAP_END then []
    else
      var b := HeaderAt(m, at);
      [b] + Parse(m, End(b))
  }

  lemma {:induction false} ParseReads(m: seq<Word>, bs: seq<Block>, k: nat)
    requires Tiled(bs) && Headed(m, bs) && k < |bs|
    ensures Parse(m, bs[k].at) == bs[k..]
    ensures HasTop(W(m, bs[k].at)) <==> k == |bs| - 1
    decreases |bs| - k
  {
    InBounds(bs, k);
    assert CtrlAt(m, bs, k);
    CtrlReads(m, bs, k);
    if k < |bs| - 1 {
      assert Joins(bs, k);
      ParseReads(m, bs, k + 1);
    }
    assert bs[k..] == [bs[k]] + bs[k + 1..];
  }

  /** Memory that holds the headers of a block sequence holds those of no other. */
  lemma EncodesOne(m: seq<Word>, bs: seq<Block>, cs: seq<Block>)
    requires Tiled(bs) && Headed(m, bs) && Tiled(cs) && Headed(m, cs)
    ensures bs == cs
  {
    ParseReads(m, bs, 0);
    ParseReads(m, cs, 0);
    assert bs[0..] == bs && cs[0..] == cs;
  }

  /** The pointers met by following links upwards from ptr, and the link that ends the walk. */
  ghost function Chain(m: seq<Word>, ptr: int): (ptrs: seq<int>)
    ensures |ptrs| >= 2 && ptrs[0] == ptr
    decreases Addr(HEAP_END) - ptr
  {
    var link := W(m, (ptr - HEAP_BASE) / 4 + 2);
    if ptr < link < Addr(HEAP_END) then [ptr] + Chain(m, link) else [ptr, link]
  }

  lemma ChainUnfolds(m: seq<Word>, at: int)
    ensures var ptr, link := Addr(at), W(m, at + 2);
      Chain(m, ptr) == (if ptr < link < Addr(HEAP_END) then [ptr] + Chain(m, link) else [ptr, link])
    ensures Chain(m, Addr(at))[1] == W(m, at + 2)
  {
    assert (Addr(at) - HEAP_BASE) / 4 == at;
  }

  ghost function FreeList(bs: seq<Block>, k: nat): seq<int>
    decreases |bs| - k
  {
    if k >= |bs| then [] else if bs[k].free then [Addr(bs[k].at)] + FreeList(bs, k + 1) else FreeList(bs, k + 1)
  }

  lemma {:induction false} FreeListSkips(bs: seq<Block>, k: nat)
    requires k <= |bs|
    ensures FreeList(bs, NextFree(bs, k)) == FreeList(bs, k)
    decreases |bs| - k
  {
    if k < |bs| && !bs[k].free { FreeListSkips(bs, k + 1); }
  }

  lemma LinksUnfold(m: seq<Word>, bs: seq<Block>, k: nat)
    requires k < |bs|
    ensures Links(m, bs, k, |bs|) <==> LinkAt(m, bs, k) && Links(m, bs, NextFree(bs, k + 1), |bs|)
  {
    if LinkAt(m, bs, k) && Links(m, bs, NextFree(bs, k + 1), |bs|) {
      forall j | k <= j < |bs|
        ensures LinkAt(m, bs, j)
      {
        if k < j < NextFree(bs, k + 1) { NextFreeSkips(bs, k + 1, j); }
      }
    }
  }

  lemma FreeListUnfolds(bs: seq<Block>, k: nat)
    requires k < |bs| && bs[k].free
    ensures var n := NextFree(bs, k + 1);
      && FreeList(bs, k) == [Addr(bs[k].at)] + FreeList(bs, n)
      && (n < |bs| ==> FreeList(bs, n) == [Addr(bs[n].at)] + FreeList(bs, n + 1))
      && (n == |bs| ==> FreeList(bs, n) == [])
  {
    FreeListSkips(bs, k + 1);
  }

  /** The links are right exactly if they chain the free blocks, upwards, and end in NULL. */
  lemma {:induction false} ChainLists(m: seq<Word>, bs: seq<Block>, k: nat)
    requires Tiled(bs) && k < |bs| && bs[k].free
    ensures Chain(m, Addr(bs[k].at)) == FreeList(bs, k) + [NULL] <==> Links(m, bs, k, |bs|)
    decreases |bs| - k
  {
    var n := NextFree(bs, k + 1);
    if n == |bs| {
      ChainEnds(m, bs, k);
    } else {
      ChainLists(m, bs, n);
      ChainGoesOn(m, bs, k, n);
    }
  }

  lemma {:induction false} ChainEnds(m: seq<Word>, bs: seq<Block>, k: nat)
    requires Tiled(bs) && k < |bs| && bs[k].free && NextFree(bs, k + 1) == |bs|
    ensures Chain(m, Addr(bs[k].at)) == FreeList(bs, k) + [NULL] <==> Links(m, bs, k, |bs|)
  {
    InBounds(bs, k);
    LinksUnfold(m, bs, k);
    FreeListUnfolds(bs, k);
    ChainUnfolds(m, bs[k].at);
    assert FreeList(bs, k) + [NULL] == [Addr(bs[k].at), NULL];
  }

  lemma {:induction false} ChainGoesOn(m: seq<Word>, bs: seq<Block>, k: nat, n: nat)
    requires Tiled(bs) && k < |bs| && bs[k].free && n == NextFree(bs, k + 1) < |bs|
    requires Chain(m, Addr(bs[n].at)) == FreeList(bs, n) + [NULL] <==> Links(m, bs, n, |bs|)
    ensures Chain(m, Addr(bs[k].at)) == FreeList(bs, k) + [NULL] <==> Links(m, bs, k, |bs|)
  {
    var ptr, next := Addr(bs[k].at), Addr(bs[n].at);
    var chain, rest, list := Chain(m, ptr), Chain(m, next), FreeList(bs, n);
    Ordered(bs, k, n);
    InBounds(bs, n);
    FreeListUnfolds(bs, k);
    ChainUnfolds(m, bs[k].at);
    ChainRead(m, bs, k, n, chain, rest, list);
  }

  lemma {:induction false} ChainRead(m: seq<Word>, bs: seq<Block>, k: nat, n: nat, chain: seq<int>, rest: seq<int>,
          list: seq<int>)
    requires k < |bs| && bs[k].free && n == NextFree(bs, k + 1) < |bs|
    requires |chain| >= 2 && chain[1] == W(m, bs[k].at + 2) && list != [] && list[0] == Addr(bs[n].at)
    requires chain[1] == Addr(bs[n].at) ==> chain == [Addr(bs[k].at)] + rest
    requires rest == list + [NULL] <==> Links(m, bs, n, |bs|)
    ensures chain == [Addr(bs[k].at)] + list + [NULL] <==> Links(m, bs, k, |bs|)
  {
    LinksUnfold(m, bs, k);
    ChainStep(Addr(bs[k].at), Addr(bs[n].at), chain, rest, list);
  }

  /** Two lists with the same head agree just when their tails do. */
  lemma ChainStep(ptr: int, next: int, chain: seq<int>, rest: seq<int>, list: seq<int>)
    requires |chain| >= 2 && list != [] && list[0] == next
    requires chain[1] == next ==> chain == [ptr] + rest
    ensures chain == [ptr] + list + [NULL] <==> chain[1] == next && rest == list + [NULL]
  {
    assert ([ptr] + list + [NULL])[1..] == list + [NULL];
    assert [ptr] + (list + [NULL]) == [ptr] + list + [NULL];
    if chain[1] == next { assert chain[1..] == rest; }
  }

  // ----- Through the allocator's own methods -----

  /** What a dump of the heap shows, in numbers: the control word, the size of the block before it, and the link of a
      free block, which is the address of the next one or zero. */
  lemma HeaderNumbers(h: Heap, k: nat)
    requires h.Valid() && h.heapInitialized != 1 && k < |h.blocks|
    ensures var bs, m := h.blocks, h.words[..];
      && 0 <= bs[k].at && bs[k].at + 2 < |m|
      && m[bs[k].at] == 4 * bs[k].len + (if bs[k].free then 2 else 0) + (if k == |bs| - 1 then 1 else 0)
      && m[bs[k].at + 1] == (if k == 0 then 0 else 4 * bs[k - 1].len)
      && (h.AllLinked() && bs[k].free ==>
        var n := NextFree(bs, k + 1);
        m[bs[k].at + 2] == if n == |bs| then 0 else 0x70_0000 + 4 * bs[n].at)
    ensures h.firstFree == 0x70_0000 + 4 * h.blocks[FirstIndex(h.blocks)].at
  {
    var bs, m := h.blocks, h.words[..];
    InBounds(bs, k);
    assert CtrlAt(m, bs, k) && PrevAt(m, bs, k);
    if h.AllLinked() { assert LinkAt(m, bs, k); }
  }

  /** Between calls, the memory reads as one block sequence, and the chain from `first_free_block` lists its free
      blocks exactly if the links are right. */
  lemma HeapReads(h: Heap)
    requires h.Valid() && h.heapInitialized != 1
    ensures Parse(h.words[..], 0) == h.blocks
    ensures TopFree(h.blocks) ==>
      (Chain(h.words[..], h.firstFree) == FreeList(h.blocks, 0) + [NULL] <==> h.AllLinked())
  {
    var m, bs := h.words[..], h.blocks;
    ParseReads(m, bs, 0);
    assert bs[0..] == bs;
    if TopFree(bs) {
      var k := FirstIndex(bs);
      if NextFree(bs, 0) == |bs| { NextFreeSkips(bs, 0, |bs| - 1); }
      FreeListSkips(bs, 0);
      ChainLists(m, bs, k);
      assert Links(m, bs, k, |bs|) <==> Linked(m, bs) by {
        if Links(m, bs, k, |bs|) {
          forall j | 0 <= j < |bs|
            ensures LinkAt(m, bs, j)
          {
            if j < k { NextFreeSkips(bs, 0, j); }
          }
        }
      }
    }
  }

  /** What a run keeps of the links: while the scans are off, every free block links to its neighbour; and a block over
      the whole heap holds a link to nothing. */
  ghost predicate Holds(m: seq<Word>, s: State) {
    && W(m, HEAP_END) == s.behind
    && (s.started && s.linked ==> Linked(m, s.blocks))
    && (s.started && s.counter <= 15 ==> Near(m, s.blocks))
    && (s.started && |s.blocks| == 1 ==> W(m, 2) == NULL)
  }

  /** h is in the state s. */
  ghost predicate Shows(h: Heap, s: State)
    reads h, h.words
  {
    && h.Valid() && h.blocks == s.blocks && (h.heapInitialized != 1 <==> s.started)
    && h.counter == s.counter && h.topBlockFlag == s.flag && h.freed == s.freed
    && Holds(h.words[..], s)
  }

  /** Over every run, until the scans are on, the links are right exactly if only the top block is free. */
  lemma EarlyLinks(h: Heap, s: State)
    requires Shows(h, s) && Sound(s) && s.counter <= 15
    ensures h.AllLinked() <==> OnlyTop(h.blocks)
    ensures h.AllLinked() <==> s.linked
  {
    if s.started { NearLinked(h.words[..], s.blocks); }
  }

  /** Where every run of a new allocator begins. */
  method NewHeap() returns (h: Heap)
    ensures fresh(h) && fresh(h.words)
    ensures Sound(Start(W(h.words[..], HEAP_END))) && Shows(h, Start(W(h.words[..], HEAP_END)))
  {
    h := new Heap();
  }

  /** One call: the state goes where the run says, and the answer is the one it says. */
  method Perform(h: Heap, ghost s: State, c: Call) returns (p: int)
    requires Shows(h, s) && Sound(s) && Admitted(s, c)
    modifies h, h.words
    ensures Shows(h, Does(s, c)) && p == Answer(s, c)
  {
    match c {
      case Allocate(nbytes) =>
        p := PerformAllocate(h, s, nbytes);
      case Deallocate(ptr) =>
        PerformFree(h, s, ptr);
        p := NULL;
    }
  }

  method PerformAllocate(h: Heap, ghost s: State, nbytes: int) returns (p: int)
    requires Shows(h, s) && Sound(s) && Admitted(s, Allocate(nbytes))
    modifies h, h.words
    ensures Shows(h, Does(s, Allocate(nbytes))) && p == Answer(s, Allocate(nbytes))
  {
    ghost var m := h.words[..];
    FoundWalks(m, s, nbytes);
    p := h.Malloc(nbytes);
    ghost var t := State(h.blocks, h.heapInitialized != 1, h.counter, h.topBlockFlag,
      Does(s, Allocate(nbytes)).linked, h.freed, s.behind);
    AllocatedState(s, nbytes, p, t);
    AllocatedHolds(m, h.words[..], s, nbytes, p, t);
  }

  /** What `malloc` ensures of the allocator's fields is the next state of the run. */
  lemma AllocatedState(s: State, nbytes: int, p: int, t: State)
    requires Sound(s) && Found(s, Need(nbytes)) < |s.blocks|
    requires Answered(s.blocks, Found(s, Need(nbytes)), Need(nbytes), p, t.blocks)
    requires t.flag == FlagAnswered(s.blocks, Found(s, Need(nbytes)), Need(nbytes), s.flag)
    requires p != NULL ==> t.started && t.counter == s.counter + (if s.started then 1 else 0) && t.freed == {}
    requires p == NULL ==> t.started == s.started && t.counter == s.counter && t.freed == s.freed
    requires t.behind == s.behind && t.linked == Does(s, Allocate(nbytes)).linked
    ensures t == Does(s, Allocate(nbytes)) && p == Answer(s, Allocate(nbytes))
    ensures p != NULL <==> s.blocks[Found(s, Need(nbytes))].len >= Need(nbytes)
  {
    InBounds(s.blocks, Found(s, Need(nbytes)));
  }

  /** What `malloc` ensures of the memory is what the run keeps. */
  lemma AllocatedHolds(m: seq<Word>, m': seq<Word>, s: State, nbytes: int, p: int, t: State)
    requires Sound(s) && Admitted(s, Allocate(nbytes)) && Holds(m, s) && t == Does(s, Allocate(nbytes))
    requires Found(s, Need(nbytes)) < |s.blocks|
    requires p != NULL <==> s.blocks[Found(s, Need(nbytes))].len >= Need(nbytes)
    requires p != NULL && s.started ==> TakenAs(m, m', s.blocks, Found(s, Need(nbytes)), t.blocks, s.counter)
    requires !s.started ==> FirstTaken(m, m', t.blocks)
    requires p == NULL ==> m' == m
    ensures Holds(m', t)
  {
    var i, need := Found(s, Need(nbytes)), Need(nbytes);
    FoundInside(s, nbytes);
    if s.blocks[i].len >= need { HandsShown(m, m', s, i, need); }
  }

  /** The walk along the links stops where the state says. */
  lemma FoundWalks(m: seq<Word>, s: State, nbytes: int)
    requires Sound(s) && Admitted(s, Allocate(nbytes))
    requires Holds(m, s)
    ensures var i, need := Found(s, Need(nbytes)), Need(nbytes);
      && i < |s.blocks| && Walk(m, s.blocks, need, FirstIndex(s.blocks)) == i
      && (s.started ==> Allocatable(m, s.blocks, s.flag, need))
      && (s.blocks[i].len >= need ==> ServedAt(s.blocks, i, need, s.flag))
      && (OnlyTop(s.blocks) ==> i == |s.blocks| - 1)
  {
    var bs, k, need := s.blocks, FirstIndex(s.blocks), Need(nbytes);
    FoundInside(s, nbytes);
    FirstBelowTop(bs);
    if s.linked || OnlyTop(bs) {
      if !s.started { assert k == 0 == |bs| - 1; } else { WalkPicks(m, bs, s.flag, need); }
    } else if bs[k].len < need {
      assert NearAt(m, bs, k);
      BlockAtFinds(bs, k + 1, k + 1);
    }
  }

  /** What the memory holds after a block was handed out. */
  lemma HandsShown(m: seq<Word>, m': seq<Word>, s: State, i: nat, need: int)
    requires Sound(s) && i < |s.blocks| && 1 <= need <= s.blocks[i].len && ServedAt(s.blocks, i, need, s.flag)
    requires (OnlyTop(s.blocks) ==> i == |s.blocks| - 1) && Holds(m, s)
    requires s.started ==> TakenAs(m, m', s.blocks, i, Take(s.blocks, i, need), s.counter)
    requires !s.started ==> 4 * need + 12 <= MB_HEXA && FirstTaken(m, m', Take(s.blocks, i, need))
    ensures Holds(m', Hands(s, i, need))
  {
    var bs' := Take(s.blocks, i, need);
    HandsSound(s, i, need);
    TakeShape(s.blocks, i, need);
    if s.counter <= 15 {
      if s.started { NearLinked(m', bs'); } else { LinkedNear(m', bs'); }
    }
  }

  method PerformFree(h: Heap, ghost s: State, ptr: int)
    requires Shows(h, s) && Sound(s) && Admitted(s, Deallocate(ptr))
    modifies h, h.words
    ensures Shows(h, Does(s, Deallocate(ptr)))
  {
    ghost var m, i := h.words[..], BlockAt(s.blocks, ptr, 0);
    ghost var held := ptr != NULL && Releasable(s.blocks, i, s.behind);
    assert held ==> Freeable(m, s.blocks, i, ptr);
    h.Free(ptr);
    if held {
      TakesBackSound(s, i, ptr);
      TakenBackShown(m, h.words[..], s, i, ptr);
    }
  }

  /** What the memory holds after a block was freed. */
  lemma TakenBackShown(m: seq<Word>, m': seq<Word>, s: State, i: nat, ptr: int)
    requires Sound(s) && s.started && Releasable(s.blocks, i, s.behind) && FreedAs(m, m', s.blocks, i, s.counter)
    requires Holds(m, s)
    ensures Holds(m', TakesBack(s, i, ptr))
  {
    var bs' := Release(s.blocks, i);
    if |s.blocks| == 1 {
      assert bs' == [s.blocks[0].(free := true)];
      assert W(m', 2) == W(m, 2);
      OnlyLink(m', bs', 0);
      LinkedNear(m', bs');
    }
  }

  /** Over any run the allocator's heap and answers are those of the block sequences. */
  method PerformAll(h: Heap, ghost s: State, calls: seq<Call>) returns (ps: seq<int>)
    requires Shows(h, s) && Sound(s) && Runs(s, calls)
    modifies h, h.words
    ensures Shows(h, After(s, calls)) && ps == Answers(s, calls)
    decreases |calls|
  {
    if calls == [] {
      return [];
    }
    ghost var t := Does(s, calls[0]);
    DoesSound(s, calls[0]);
    var p := Perform(h, s, calls[0]);
    var rest := PerformAll(h, t, calls[1..]);
    return [p] + rest;
  }

  /** Two allocators after any two runs: if the same blocks are live, they hold the same blocks, and the same chain of
      free blocks if both have their links right. */
  method TwoHistories(h: Heap, ghost s: State, xs: seq<Call>, k: Heap, ghost t: State, ys: seq<Call>)
    requires Shows(h, s) && Sound(s) && Runs(s, xs) && Shows(k, t) && Sound(t) && Runs(t, ys)
    requires h != k && h.words != k.words
    modifies h, h.words, k, k.words
    ensures h.Valid() && k.Valid() && h.blocks == After(s, xs).blocks && k.blocks == After(t, ys).blocks
    ensures Live(h.blocks) == Live(k.blocks) ==> h.blocks == k.blocks && h.firstFree == k.firstFree
    ensures Live(h.blocks) == Live(k.blocks) && BothRead(h, k) ==>
      Chain(h.words[..], h.firstFree) == Chain(k.words[..], k.firstFree)
  {
    var ps := PerformAll(h, s, xs);
    var qs := PerformAll(k, t, ys);
    if Live(h.blocks) == Live(k.blocks) {
      HistoryIndependent(s, xs, t, ys);
      if BothRead(h, k) {
        HeapReads(h);
        HeapReads(k);
      }
    }
  }

  /** Both heaps are laid out, have a free top block and right links. */
  ghost predicate BothRead(h: Heap, k: Heap)
    reads h, h.words, k, k.words
  {
    && h.heapInitialized != 1 && k.heapInitialized != 1 && h.AllLinked() && k.AllLinked()
    && TopFree(h.blocks) && TopFree(k.blocks)
  }

  /** A request that the search grants on a heap with a free top block, and that `free` can take back. */
  ghost predicate Undoable(bs: seq<Block>, need: int, flag: int, behind: Word)
    requires |bs| > 0
  {
    && TopFree(bs) && 1 <= need && Served(bs, need, flag) && Pick(bs, need) < |bs|
    && Releasable(Take(bs, Pick(bs, need), need), Pick(bs, need), behind)
  }

  /** What can be taken back: everything but a top block taken whole, which depends on the word behind the heap. */
  lemma UndoableUnless(bs: seq<Block>, need: int, flag: int, behind: Word)
    requires WellFormed(bs) && TopFree(bs) && 1 <= need && Served(bs, need, flag) && Pick(bs, need) < |bs|
    ensures Undoable(bs, need, flag, behind) <==>
      || Pick(bs, need) < |bs| - 1 || bs[|bs| - 1].len - need >= 3
      || (if |bs| == 1 then SizeBits(behind) == 0 else !HasFree(behind))
  {
    TakeShape(bs, Pick(bs, need), need);
    TakeWellFormed(bs, Pick(bs, need), need, flag);
  }

  /** An allocation that is freed at once restores the blocks, the free list and `first_free_block`. */
  method MallocThenFree(h: Heap, nbytes: int)
    requires h.Valid() && h.AllLinked() && h.heapInitialized != 1 && (h.counter > 15 || OnlyTop(h.blocks))
    requires 0 < nbytes <= 0xFFFF_FFFC
    requires Undoable(h.blocks, Need(nbytes), h.topBlockFlag, W(h.words[..], HEAP_END))
    modifies h, h.words
    ensures h.Valid() && h.blocks == old(h.blocks) && h.firstFree == old(h.firstFree)
    ensures Chain(h.words[..], h.firstFree) == old(Chain(h.words[..], h.firstFree))
  {
    HeapReads(h);
    ghost var bs, m, counter, need := h.blocks, h.words[..], h.counter, Need(nbytes);
    WalkPicks(m, bs, h.topBlockFlag, need);
    GrantedUndone(bs, need, h.topBlockFlag);
    var p := h.Malloc(nbytes);
    ghost var i := Pick(bs, need);
    ghost var cs, m1 := h.blocks, h.words[..];
    assert Freeable(m1, cs, i, p);
    h.Free(p);
    if |cs| == 1 { OneBlockRestored(m, m1, h.words[..], bs, cs); }
    HeapReads(h);
  }

  /** A block over the whole heap keeps its link word while it is handed out. */
  lemma OneBlockRestored(m: seq<Word>, m1: seq<Word>, m2: seq<Word>, bs: seq<Block>, cs: seq<Block>)
    requires Tiled(bs) && |bs| == |cs| == 1 && bs[0].free && Linked(m, bs)
    requires cs[0].at == bs[0].at && End(cs[0]) == End(bs[0])
    requires SamePayload(m, m1, bs[0]) && SamePayload(m1, m2, cs[0])
    ensures Linked(m2, bs)
  {
    assert LinkAt(m, bs, 0);
    OnlyLink(m2, bs, 0);
  }

  lemma GrantedUndone(bs: seq<Block>, need: int, flag: int)
    requires WellFormed(bs) && TopFree(bs) && 1 <= need && Served(bs, need, flag) && Pick(bs, need) < |bs|
    ensures var i := Pick(bs, need);
      var cs := Take(bs, i, need);
      && Release(cs, i) == bs && i < |cs| && cs[i].at == bs[i].at && Addr(bs[i].at) != NULL && |cs| >= |bs|
      && (|cs| == 1 ==> End(cs[0]) == End(bs[0]))
      && (OnlyTop(bs) ==> FreedAtTop(cs, i))
  {
    var i := Pick(bs, need);
    InBounds(bs, i);
    TakeShape(bs, i, need);
    MallocFree(bs, need, flag);
    if OnlyTop(bs) { PickedInReach(bs, need); }
  }

  // ----- Freeing before the scans are on -----

  lemma OnlyTopFreed(bs: seq<Block>, i: nat)
    requires WellFormed(bs) && TopFree(bs) && OnlyTop(bs) && i < |bs| && !bs[i].free
    ensures FreedAtTop(bs, i) <==> i + 2 == |bs|
    ensures PrevFree(bs, i) == -1
    ensures i + 2 < |bs| ==> !bs[i + 1].free && Low(bs, i) == i && High(bs, i) == i + 1
  {
    if i > 0 && bs[i - 1].free { PrevFreeSkips(bs, |bs| - 1, i - 1); }
    if i + 1 < |bs| - 1 && bs[i + 1].free { PrevFreeSkips(bs, |bs| - 1, i + 1); }
    if PrevFree(bs, i) >= 0 { PrevFreeSkips(bs, |bs| - 1, PrevFree(bs, i)); }
  }

  /** Freeing live block i leaves the chain equal to the free list if and only if the scans are on, or block i lies
      directly below the top block, or it is joined with that and with the free block below. */
  method FreeKeepsChain(h: Heap, ptr: int, ghost i: nat)
    requires h.Valid() && h.AllLinked() && h.heapInitialized != 1 && TopFree(h.blocks)
    requires i < |h.blocks| && !h.blocks[i].free && ptr == Addr(h.blocks[i].at)
    modifies h, h.words
    ensures h.Valid() && h.blocks == Release(old(h.blocks), i)
    ensures Chain(h.words[..], h.firstFree) == FreeList(h.blocks, 0) + [NULL] <==>
      h.counter > 15 || FreedAtTop(old(h.blocks), i)
    ensures OnlyTop(old(h.blocks)) ==> (FreedAtTop(old(h.blocks), i) <==> i + 2 == |old(h.blocks)|)
    ensures h.heapInitialized != 1 && h.counter == old(h.counter) && h.topBlockFlag == 1
    ensures LinkedTo(h.words[..], h.blocks, Low(old(h.blocks), i), Hop(h.blocks, Low(old(h.blocks), i), h.counter))
  {
    InBounds(h.blocks, i);
    if OnlyTop(h.blocks) { OnlyTopFreed(h.blocks, i); }
    assert Freeable(h.words[..], h.blocks, i, ptr);
    ReleaseWellFormed(h.blocks, i);
    h.Free(ptr);
    HeapReads(h);
  }

  /** The first early free of a block further down misleads the search: a request that needs more than the freed block
      has is given the live block above it. */
  method EarlyFreeMisleads(h: Heap, ptr: int, ghost i: nat, nbytes: int) returns (p: int)
    requires h.Valid() && h.AllLinked() && h.heapInitialized != 1 && h.counter <= 15
    requires TopFree(h.blocks) && OnlyTop(h.blocks)
    requires i + 2 < |h.blocks| && ptr == Addr(h.blocks[i].at)
    requires 0 < nbytes <= 0xFFFF_FFFC
    requires h.blocks[i].len < Need(nbytes) <= h.blocks[i + 1].len < Need(nbytes) + 3
    modifies h, h.words
    ensures old(h.blocks[i + 1]) in old(Live(h.blocks)) && p == old(Addr(h.blocks[i + 1].at))
    ensures h.Valid() && h.blocks == Release(old(h.blocks), i) && old(h.blocks[i + 1]) in Live(h.blocks)
  {
    ghost var bs := h.blocks;
    EarlyRelease(bs, i);
    FreeKeepsChain(h, ptr, i);
    WalkMisled(h.words[..], h.blocks, h.topBlockFlag, Need(nbytes), i);
    p := h.Malloc(nbytes);
  }

  /** The blocks after an early free further down: block i is free, and the first one that is. */
  lemma EarlyRelease(bs: seq<Block>, i: nat)
    requires WellFormed(bs) && TopFree(bs) && OnlyTop(bs) && i + 2 < |bs|
    ensures !bs[i].free && !bs[i + 1].free && Low(bs, i) == i
    ensures var cs := Release(bs, i);
      && WellFormed(cs) && |cs| == |bs| && cs[i] == bs[i].(free := true) && cs[i + 1] == bs[i + 1]
      && FirstIndex(cs) == i
  {
    PrevFreeSkips(bs, |bs| - 1, i);
    PrevFreeSkips(bs, |bs| - 1, i + 1);
    OnlyTopFreed(bs, i);
    ReleaseWellFormed(bs, i);
    FirstIsFree(bs, Release(bs, i), i);
  }

  lemma FirstIsFree(bs: seq<Block>, cs: seq<Block>, i: nat)
    requires i <= |bs| && PrevFree(bs, i) == -1 && i < |cs| && SamePrefix(bs, cs, i) && cs[i].free
    ensures FirstIndex(cs) == i
  {
    PrevFreePrefix(bs, cs, i);
    NextFreeUpTo(cs, 0, i);
  }

  /** An allocator that has handed out 4 bytes. */
  method FirstSmall() returns (h: Heap, first: int)
    ensures fresh(h) && fresh(h.words) && h.Valid() && h.AllLinked()
    ensures h.heapInitialized != 1 && h.counter == 1 && h.topBlockFlag == 1
    ensures h.blocks == TwoBlocks(true) && first == HEAP_BASE
  {
    h := new Heap();
    TwiceBlocks();
    first := h.Malloc(4);
  }

  /** Two requests, the first one freed, and the second one repeated: its live block is handed out again. */
  method EarlyFreeHandsOutTwice() returns (second: int, third: int)
    ensures second == third != NULL
  {
    var h, first := FirstSmall();
    EarlyBlocks();
    WalkPicks(h.words[..], h.blocks, 1, 2);
    second := h.Malloc(8);
    assert h.blocks == ThreeBlocks();
    third := EarlyFreeMisleads(h, first, 0, 8);
  }

  // ----- An exhausted heap -----

  /** Once a request has taken the top block whole, the next one of that size is given the same live block, and so is
      every smaller one. */
  method TopHandedOutTwice(nbytes: int) returns (first: int, second: int)
    requires 0 < nbytes <= 0xF_FFF4
    ensures first == second != NULL
  {
    var h, p := FirstSmall();
    TwiceBlocks();
    WalkPicks(h.words[..], h.blocks, 1, 0x3_FFFD);
    first := h.Malloc(0xF_FFF4);
    assert h.blocks == TwoBlocks(false);
    WalkPicks(h.words[..], h.blocks, h.topBlockFlag, Need(nbytes));
    second := h.Malloc(nbytes);
  }

  /** A block of 4 bytes, and the top block of 0xFFFF4. */
  function TwoBlocks(free: bool): seq<Block> {
    [Block(0, 1, false), Block(3, 0x3_FFFD, free)]
  }

  /** Blocks of 4 and 8 bytes, and the top block. */
  function ThreeBlocks(): seq<Block> {
    [Block(0, 1, false), Block(3, 2, false), Block(7, 0x3_FFF9, true)]
  }

  lemma TwiceBlocks()
    ensures Pick(FreshBlocks(), 1) == 0 && Take(FreshBlocks(), 0, 1) == TwoBlocks(true)
    ensures forall free ::
      (Pick(TwoBlocks(free), 0x3_FFFD) == 1 && OnlyTop(TwoBlocks(free)) &&
        Take(TwoBlocks(free), 1, 0x3_FFFD) == TwoBlocks(false))
  {
  }

  lemma EarlyBlocks()
    ensures Pick(TwoBlocks(true), 2) == 1 && Served(TwoBlocks(true), 2, 1)
    ensures Take(TwoBlocks(true), 1, 2) == ThreeBlocks()
    ensures OnlyTop(ThreeBlocks()) && TopFree(ThreeBlocks())
  {
  }
}
