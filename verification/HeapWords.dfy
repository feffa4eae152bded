/** How a block sequence is written in the words of the heap: two header words per block,
    and in a free block a third word that links to the next free block. */
module HeapWords {
  import opened HeapBlocks
  import opened Machine

  const FREE_BLOCK := 2
  const TOP_BLOCK := 1
  // Two words of slack: the code writes the `prev_size` of a block after the top block.
  const MEM_WORDS := HEAP_END + 2
  // Where the `prev_size` after the top block goes.
  const SLACK := HEAP_END + 1

  /** The fields of a control word: ctrl & BLOCK_SIZE_BITS, and its two flags. */
  function SizeBits(ctrl: Word): Word {
    ctrl - ctrl % 4
  }

  predicate HasFree(ctrl: Word) {
    ctrl / 2 % 2 == 1
  }

  predicate HasTop(ctrl: Word) {
    ctrl % 2 == 1
  }

  function RoundUp(n: int): int {
    if n % 4 == 0 then n else n + 4 - n % 4
  }

  /** A request in words. */
  function Need(nbytes: int): int {
    RoundUp(nbytes) / 4
  }

  /** The fields of a word that holds the length `len` and the flags `flags`. */
  lemma WordParts(ctrl: Word, len: int, flags: int)
    requires ctrl == 4 * len + flags && 0 <= flags < 4
    ensures SizeBits(ctrl) == 4 * len && (HasFree(ctrl) <==> flags >= 2) && (HasTop(ctrl) <==> flags % 2 == 1)
  {
    assert ctrl % 4 == flags && ctrl / 2 == 2 * len + flags / 2;
  }

  /** A request in words is the request in bytes, rounded up. */
  lemma NeedBytes(nbytes: int)
    requires 0 < nbytes
    ensures 1 <= Need(nbytes) && nbytes <= 4 * Need(nbytes) < nbytes + 4
  {
  }

  /** The word at index x; indices outside the memory read as 0. */
  function W(m: seq<Word>, x: int): Word {
    if 0 <= x < |m| then m[x] else 0
  }

  /** m' is m with the word at index x replaced by v. */
  ghost predicate Stored(m: seq<Word>, m': seq<Word>, x: int, v: int) {
    W(m', x) == v && forall y :: y != x ==> W(m', y) == W(m, y)
  }

  function PtrAt(bs: seq<Block>, k: nat): int {
    if k < |bs| then Addr(bs[k].at) else NULL
  }

  function PtrOrNull(bs: seq<Block>, k: int): int
    requires k < |bs|
  {
    if k < 0 then NULL else Addr(bs[k].at)
  }

  // ----- Encoding -----

  function CtrlWord(b: Block, top: bool): int {
    4 * b.len + (if b.free then FREE_BLOCK else 0) + (if top then TOP_BLOCK else 0)
  }

  /** The control word at b.at describes b. */
  ghost predicate Describes(m: seq<Word>, b: Block, top: bool) {
    W(m, b.at) == CtrlWord(b, top)
  }

  ghost predicate CtrlAt(m: seq<Word>, bs: seq<Block>, k: nat)
    requires k < |bs|
  {
    Describes(m, bs[k], k == |bs| - 1)
  }

  ghost predicate PrevAt(m: seq<Word>, bs: seq<Block>, k: nat)
    requires k < |bs|
  {
    W(m, bs[k].at + 1) == if k == 0 then 0 else 4 * bs[k - 1].len
  }

  ghost predicate LinkAt(m: seq<Word>, bs: seq<Block>, k: nat)
    requires k < |bs|
  {
    bs[k].free ==> W(m, bs[k].at + 2) == PtrAt(bs, NextFree(bs, k + 1))
  }

  ghost predicate Ctrls(m: seq<Word>, bs: seq<Block>, lo: nat, hi: nat)
    requires hi <= |bs|
  {
    forall k :: lo <= k < hi ==> CtrlAt(m, bs, k)
  }

  ghost predicate Prevs(m: seq<Word>, bs: seq<Block>, lo: nat, hi: nat)
    requires hi <= |bs|
  {
    forall k :: lo <= k < hi ==> PrevAt(m, bs, k)
  }

  ghost predicate Links(m: seq<Word>, bs: seq<Block>, lo: nat, hi: nat)
    requires hi <= |bs|
  {
    forall k :: lo <= k < hi ==> LinkAt(m, bs, k)
  }

  /** The headers of all blocks are in place. */
  ghost predicate Headed(m: seq<Word>, bs: seq<Block>) {
    Ctrls(m, bs, 0, |bs|) && Prevs(m, bs, 0, |bs|)
  }

  /** The links of all free blocks are right. */
  ghost predicate Linked(m: seq<Word>, bs: seq<Block>) {
    Links(m, bs, 0, |bs|)
  }

  ghost predicate Encodes(m: seq<Word>, bs: seq<Block>) {
    Headed(m, bs) && Linked(m, bs)
  }

  /** What `find_next_free` answers for block k: it looks no further than the neighbour until `counter` passes 15. */
  function Hop(bs: seq<Block>, k: nat, counter: int): nat
    requires k < |bs|
  {
    if counter > 15 then NextFree(bs, k + 1) else k + 1
  }

  ghost predicate LinkedTo(m: seq<Word>, bs: seq<Block>, k: nat, j: nat)
    requires k < |bs|
  {
    W(m, bs[k].at + 2) == PtrAt(bs, j)
  }

  /** The answer is the next free block just when the scan is on, or the neighbour is free, or there is none. */
  lemma HopExact(bs: seq<Block>, k: nat, counter: int)
    requires Tiled(bs) && k < |bs|
    ensures PtrAt(bs, Hop(bs, k, counter)) == PtrAt(bs, NextFree(bs, k + 1)) <==>
      counter > 15 || k + 1 == |bs| || bs[k + 1].free
  {
    var n := NextFree(bs, k + 1);
    if k + 1 < |bs| {
      InBounds(bs, k + 1);
      if k + 1 < n < |bs| { Ordered(bs, k + 1, n); }
    }
  }

  lemma HopLink(m: seq<Word>, bs: seq<Block>, k: nat, counter: int)
    requires Tiled(bs) && Coalesced(bs) && k < |bs| && bs[k].free
    requires LinkedTo(m, bs, k, Hop(bs, k, counter))
    ensures LinkAt(m, bs, k) <==> counter > 15 || k + 1 == |bs|
  {
    HopExact(bs, k, counter);
    if k + 1 < |bs| { assert Apart(bs, k); }
  }

  ghost predicate NearAt(m: seq<Word>, bs: seq<Block>, k: nat)
    requires k < |bs|
  {
    bs[k].free ==> LinkedTo(m, bs, k, k + 1)
  }

  /** Every free block links to the block directly above it, free or not: what is stored while the scans are off. */
  ghost predicate Near(m: seq<Word>, bs: seq<Block>) {
    forall k :: 0 <= k < |bs| ==> NearAt(m, bs, k)
  }

  /** Such links are right exactly if only the top block is free. */
  lemma NearLinked(m: seq<Word>, bs: seq<Block>)
    requires WellFormed(bs) && Near(m, bs)
    ensures Linked(m, bs) <==> OnlyTop(bs)
  {
    var p := PrevFree(bs, |bs| - 1);
    if p >= 0 {
      assert NearAt(m, bs, p);
      HopLink(m, bs, p, 0);
    } else {
      forall k | 0 <= k < |bs|
        ensures LinkAt(m, bs, k)
      {
        assert NearAt(m, bs, k);
        if k < |bs| - 1 { PrevFreeSkips(bs, |bs| - 1, k); }
      }
    }
  }

  lemma LinkedNear(m: seq<Word>, bs: seq<Block>)
    requires |bs| > 0 && Linked(m, bs) && OnlyTop(bs)
    ensures Near(m, bs)
  {
    forall k | 0 <= k < |bs|
      ensures NearAt(m, bs, k)
    {
      if k < |bs| - 1 { PrevFreeSkips(bs, |bs| - 1, k); } else { assert LinkAt(m, bs, k); }
    }
  }

  // ----- What a change to a run of blocks leaves alone -----

  /** Only the words lo..hi, the one at `link` and the `prev_size` of the block at hi differ. */
  ghost predicate SameOutside(m: seq<Word>, m': seq<Word>, lo: int, hi: int, link: int) {
    forall x :: (x < lo && x != link) || (x >= hi && x != hi + 1) ==> W(m', x) == W(m, x)
  }

  /** The words a block's owner may use. */
  ghost predicate SamePayload(m: seq<Word>, m': seq<Word>, b: Block) {
    forall x :: b.at + 2 <= x < End(b) ==> W(m', x) == W(m, x)
  }

  /** The word that links to the blocks from index i on, or -1 when no free block precedes them. */
  function LinkIndex(bs: seq<Block>, i: nat): int
    requires i <= |bs|
  {
    var p := PrevFree(bs, i);
    if p >= 0 then bs[p].at + 2 else -1
  }

  ghost predicate SamePrefix(bs: seq<Block>, bs': seq<Block>, i: nat) {
    i <= |bs| && i <= |bs'| && forall k {:trigger bs'[k]} :: 0 <= k < i ==> bs'[k] == bs[k]
  }

  /** bs' repeats bs below index i, and from j on at index j'. */
  ghost predicate Spliced(bs: seq<Block>, i: nat, j: nat, bs': seq<Block>, j': nat) {
    && i < j <= |bs| && i < j' <= |bs'|
    && SamePrefix(bs, bs', i)
    && |bs'| - j' == |bs| - j
    && (forall k :: j' <= k < |bs'| ==> bs'[k] == bs[k - j' + j])
  }

  lemma PrefixHeaders(m: seq<Word>, m': seq<Word>, bs: seq<Block>, i: nat, hi: int, bs': seq<Block>)
    requires Tiled(bs) && i < |bs| && i < |bs'| && SamePrefix(bs, bs', i)
    requires Ctrls(m, bs, 0, i) && Prevs(m, bs, 0, i)
    requires SameOutside(m, m', bs[i].at, hi, LinkIndex(bs, i)) && bs[i].at <= hi
    ensures Ctrls(m', bs', 0, i) && Prevs(m', bs', 0, i)
  {
    var p := PrevFree(bs, i);
    forall k | 0 <= k < i
      ensures CtrlAt(m', bs', k) && PrevAt(m', bs', k)
    {
      assert CtrlAt(m, bs, k) && PrevAt(m, bs, k);
      Ordered(bs, k, i);
      if p >= 0 && k < p { Ordered(bs, k, p); }
      if p >= 0 && k > p { Ordered(bs, p, k); }
    }
  }

  lemma SuffixHeaders(m: seq<Word>, m': seq<Word>, bs: seq<Block>, i: nat, j: nat, lo: int, link: int,
          bs': seq<Block>, j': nat)
    requires Tiled(bs) && Spliced(bs, i, j, bs', j')
    requires Ctrls(m, bs, j, |bs|) && Prevs(m, bs, j, |bs|)
    requires lo <= End(bs[j - 1]) && SameOutside(m, m', lo, End(bs[j - 1]), link) && link < lo
    requires W(m', End(bs[j - 1]) + 1) == 4 * bs'[j' - 1].len
    ensures Ctrls(m', bs', j', |bs'|) && Prevs(m', bs', j', |bs'|)
  {
    assert j < |bs| ==> Joins(bs, j - 1);
    forall k' | j' <= k' < |bs'|
      ensures CtrlAt(m', bs', k') && PrevAt(m', bs', k')
    {
      var k := k' - j' + j;
      assert CtrlAt(m, bs, k) && PrevAt(m, bs, k);
      Ordered(bs, j - 1, k);
      if k > j { Ordered(bs, j, k); }
    }
  }

  /** The next free block is the same for two sequences that agree as far as it lies. */
  lemma {:induction false} SamePrefixNext(bs: seq<Block>, i: nat, bs': seq<Block>, k: nat)
    requires SamePrefix(bs, bs', i)
    requires k <= PrevFree(bs, i)
    ensures NextFree(bs', k) == NextFree(bs, k) < i
    decreases i - k
  {
    if !bs[k].free {
      SamePrefixNext(bs, i, bs', k + 1);
    }
  }

  lemma {:induction false} SameSuffixNext(bs: seq<Block>, i: nat, j: nat, bs': seq<Block>, j': nat, k: nat)
    requires Spliced(bs, i, j, bs', j') && j' <= k <= |bs'|
    ensures NextFree(bs', k) == NextFree(bs, k - j' + j) - j + j'
    decreases |bs'| - k
  {
    if k < |bs'| && !bs'[k].free {
      SameSuffixNext(bs, i, j, bs', j', k + 1);
    }
  }

  lemma CtrlsFrom(m: seq<Word>, m': seq<Word>, bs: seq<Block>, i: nat)
    requires Tiled(bs) && i < |bs| && Ctrls(m, bs, i, |bs|)
    requires forall x :: x >= bs[i].at ==> W(m', x) == W(m, x)
    ensures Ctrls(m', bs, i, |bs|)
  {
    forall k | i <= k < |bs|
      ensures CtrlAt(m', bs, k)
    {
      assert CtrlAt(m, bs, k);
      if k > i { Ordered(bs, i, k); }
    }
  }

  lemma PrevFreePrefix(bs: seq<Block>, bs': seq<Block>, i: nat)
    requires SamePrefix(bs, bs', i)
    ensures PrevFree(bs', i) == PrevFree(bs, i)
    ensures LinkIndex(bs', i) == LinkIndex(bs, i)
  {
  }

  /** bs' is bs with block i split in two, `need` words and the rest. */
  ghost predicate Split(bs: seq<Block>, i: nat, need: int, bs': seq<Block>)
    requires i < |bs|
  {
    && Spliced(bs, i, i + 1, bs', i + 2)
    && bs'[i] == Block(bs[i].at, need, false)
    && bs'[i + 1] == Block(bs[i].at + need + 2, bs[i].len - need - 2, true)
    && (i > 0 ==> bs'[i - 1] == bs[i - 1])
    && (i == |bs| - 1 <==> i + 1 == |bs'| - 1)
    && PrevFree(bs', i + 1) == PrevFree(bs, i)
    && LinkIndex(bs', i + 1) == LinkIndex(bs, i)
  }

  /** bs' is bs with block i handed out whole. */
  ghost predicate Whole(bs: seq<Block>, i: nat, bs': seq<Block>)
    requires i < |bs|
  {
    && Spliced(bs, i, i + 1, bs', i + 1)
    && bs'[i] == bs[i].(free := false)
    && (i > 0 ==> bs'[i - 1] == bs[i - 1])
    && PrevFree(bs', i + 1) == PrevFree(bs, i)
    && LinkIndex(bs', i) == LinkIndex(bs, i)
  }

  lemma TakeWhole(bs: seq<Block>, i: nat, need: int)
    requires i < |bs| && bs[i].len < need + 3
    ensures Whole(bs, i, Take(bs, i, need))
  {
    PrevFreePrefix(bs, Take(bs, i, need), i);
  }

  lemma TakeSplits(bs: seq<Block>, i: nat, need: int)
    requires i < |bs| && 1 <= need <= bs[i].len - 3
    ensures Split(bs, i, need, Take(bs, i, need))
  {
    PrevFreePrefix(bs, Take(bs, i, need), i);
  }

  /** Where block i goes when it is handed out: in two parts or whole. */
  lemma TakeShape(bs: seq<Block>, i: nat, need: int)
    requires Tiled(bs) && i < |bs| && 1 <= need <= bs[i].len
    ensures var bs', j' := Take(bs, i, need), if bs[i].len - need >= 3 then i + 2 else i + 1;
      && (if bs[i].len - need < 3 then Whole(bs, i, bs') else Split(bs, i, need, bs'))
      && Spliced(bs, i, i + 1, bs', j') && bs'[i].at == bs[i].at && !bs'[i].free
      && PrevFree(bs', i) == PrevFree(bs, i) && LinkIndex(bs', i) == LinkIndex(bs, i)
  {
    if bs[i].len - need < 3 { TakeWhole(bs, i, need); } else { TakeSplits(bs, i, need); }
    PrevFreePrefix(bs, Take(bs, i, need), i);
  }

  lemma {:induction false} PrefixLinks(m: seq<Word>, m': seq<Word>, bs: seq<Block>, i: nat, hi: int, bs': seq<Block>)
    requires Tiled(bs) && i < |bs| && i < |bs'| && SamePrefix(bs, bs', i)
    requires Links(m, bs, 0, i)
    requires SameOutside(m, m', bs[i].at, hi, LinkIndex(bs, i)) && bs[i].at <= hi
    requires PrevFree(bs, i) >= 0 ==> LinkAt(m', bs', PrevFree(bs, i))
    ensures Links(m', bs', 0, i)
  {
    forall k | 0 <= k < i
      ensures LinkAt(m', bs', k)
    {
      if k < PrevFree(bs, i) {
        PrefixLink(m, m', bs, i, hi, bs', k);
      } else if k > PrevFree(bs, i) {
        PrevFreeSkips(bs, i, k);
      }
    }
  }

  lemma LinkWordKept(m: seq<Word>, m': seq<Word>, bs: seq<Block>, i: nat, hi: int, k: nat)
    requires Tiled(bs) && i < |bs| && k < PrevFree(bs, i)
    requires SameOutside(m, m', bs[i].at, hi, LinkIndex(bs, i)) && bs[i].at <= hi
    ensures W(m', bs[k].at + 2) == W(m, bs[k].at + 2)
  {
    Ordered(bs, k, PrevFree(bs, i));
    Ordered(bs, k, i);
  }

  lemma SameTarget(bs: seq<Block>, i: nat, bs': seq<Block>, k: nat)
    requires SamePrefix(bs, bs', i) && k < PrevFree(bs, i)
    ensures PtrAt(bs', NextFree(bs', k + 1)) == PtrAt(bs, NextFree(bs, k + 1))
  {
    SamePrefixNext(bs, i, bs', k + 1);
  }

  lemma {:induction false} PrefixLink(m: seq<Word>, m': seq<Word>, bs: seq<Block>, i: nat, hi: int, bs': seq<Block>,
          k: nat)
    requires Tiled(bs) && i < |bs| && SamePrefix(bs, bs', i) && k < PrevFree(bs, i)
    requires LinkAt(m, bs, k)
    requires SameOutside(m, m', bs[i].at, hi, LinkIndex(bs, i)) && bs[i].at <= hi
    ensures LinkAt(m', bs', k)
  {
    assert W(m', bs[k].at + 2) == W(m, bs[k].at + 2) by { LinkWordKept(m, m', bs, i, hi, k); }
    assert PtrAt(bs', NextFree(bs', k + 1)) == PtrAt(bs, NextFree(bs, k + 1)) by { SameTarget(bs, i, bs', k); }
    assert bs'[k] == bs[k];
  }

  lemma SuffixLinks(m: seq<Word>, m': seq<Word>, bs: seq<Block>, i: nat, j: nat, lo: int, link: int,
          bs': seq<Block>, j': nat)
    requires Tiled(bs) && Spliced(bs, i, j, bs', j')
    requires Links(m, bs, j, |bs|)
    requires lo <= End(bs[j - 1]) && SameOutside(m, m', lo, End(bs[j - 1]), link) && link < lo
    ensures Links(m', bs', j', |bs'|)
  {
    forall k' | j' <= k' < |bs'|
      ensures LinkAt(m', bs', k')
    {
      var k := k' - j' + j;
      assert LinkAt(m, bs, k);
      SameSuffixNext(bs, i, j, bs', j', k' + 1);
      Ordered(bs, j - 1, k);
    }
  }

  lemma SpliceHeaders(m: seq<Word>, m': seq<Word>, bs: seq<Block>, i: nat, j: nat, bs': seq<Block>, j': nat)
    requires Tiled(bs) && Spliced(bs, i, j, bs', j')
    requires Ctrls(m, bs, 0, |bs|) && Prevs(m, bs, 0, |bs|)
    requires SameOutside(m, m', bs[i].at, End(bs[j - 1]), LinkIndex(bs, i))
    requires j < |bs| ==> W(m', End(bs[j - 1]) + 1) == 4 * bs'[j' - 1].len
    requires Ctrls(m', bs', i, j') && Prevs(m', bs', i, j')
    ensures Ctrls(m', bs', 0, |bs'|) && Prevs(m', bs', 0, |bs'|)
  {
    LinkBelow(bs, i, j);
    PrefixHeaders(m, m', bs, i, End(bs[j - 1]), bs');
    if j < |bs| {
      SuffixHeaders(m, m', bs, i, j, bs[i].at, LinkIndex(bs, i), bs', j');
    }
  }

  /** The heart of `malloc` and `free`: rewriting the run i..j as bs'[i..j'], with one link below it
      and one `prev_size` above it, turns an encoding into an encoding. */
  lemma {:induction false} SpliceEncodes(m: seq<Word>, m': seq<Word>, bs: seq<Block>, i: nat, j: nat,
          bs': seq<Block>, j': nat)
    requires Tiled(bs) && Spliced(bs, i, j, bs', j')
    requires Encodes(m, bs)
    requires SameOutside(m, m', bs[i].at, End(bs[j - 1]), LinkIndex(bs, i))
    requires j < |bs| ==> W(m', End(bs[j - 1]) + 1) == 4 * bs'[j' - 1].len
    requires Ctrls(m', bs', i, j') && Prevs(m', bs', i, j') && Links(m', bs', i, j')
    requires PrevFree(bs, i) >= 0 ==> LinkAt(m', bs', PrevFree(bs, i))
    ensures Encodes(m', bs')
  {
    LinkBelow(bs, i, j);
    SpliceHeaders(m, m', bs, i, j, bs', j');
    PrefixLinks(m, m', bs, i, End(bs[j - 1]), bs');
    SuffixLinks(m, m', bs, i, j, bs[i].at, LinkIndex(bs, i), bs', j');
  }

  /** The same for links to the neighbour. */
  lemma {:induction false} SpliceNear(m: seq<Word>, m': seq<Word>, bs: seq<Block>, i: nat, j: nat, bs': seq<Block>,
          j': nat)
    requires Tiled(bs) && Spliced(bs, i, j, bs', j') && bs'[i].at == bs[i].at && Near(m, bs)
    requires SameOutside(m, m', bs[i].at, End(bs[j - 1]), LinkIndex(bs, i))
    requires forall k :: i <= k < j' ==> NearAt(m', bs', k)
    requires PrevFree(bs, i) >= 0 ==> NearAt(m', bs', PrevFree(bs, i))
    ensures Near(m', bs')
  {
    var p := PrevFree(bs, i);
    LinkBelow(bs, i, j);
    forall k | 0 <= k < |bs'|
      ensures NearAt(m', bs', k)
    {
      if k < p {
        assert NearAt(m, bs, k);
        LinkWordKept(m, m', bs, i, End(bs[j - 1]), k);
      } else if p < k < i {
        PrevFreeSkips(bs, i, k);
      } else if k >= j' {
        assert NearAt(m, bs, k - j' + j);
        Ordered(bs, j - 1, k - j' + j);
      }
    }
  }

  lemma LinkBelow(bs: seq<Block>, i: nat, j: nat)
    requires Tiled(bs) && i < j <= |bs|
    ensures LinkIndex(bs, i) < bs[i].at <= End(bs[j - 1])
  {
    InBounds(bs, i);
    if i < j - 1 { Ordered(bs, i, j - 1); }
    if PrevFree(bs, i) >= 0 { Ordered(bs, PrevFree(bs, i), i); }
  }

  // ----- The states that `malloc` passes through -----

  /** What the first allocation writes as the size of the top block: unsigned, so it wraps when nothing is left. */
  function InitTopSize(n: int): int {
    (MB_HEXA - n - 8) % 0x1_0000_0000
  }

  /** The five words that the first allocation writes lay out the heap, exactly if a payload word of the top block is
      left. */
  lemma InitEncodes(m: seq<Word>, need: int)
    requires 1 <= need < MB_HEXA / 4
    requires W(m, 0) == 4 * need && W(m, 1) == 0
    requires W(m, need + 2) == InitTopSize(4 * need) + FREE_BLOCK + TOP_BLOCK && W(m, need + 3) == 4 * need &&
      W(m, need + 4) == NULL
    ensures var bs := Take(FreshBlocks(), 0, need);
      Encodes(m, bs) <==> 4 * need + 12 <= MB_HEXA
    ensures var bs := Take(FreshBlocks(), 0, need);
      4 * need + 12 <= MB_HEXA ==> WellFormed(bs) && PtrAt(bs, FirstIndex(bs)) == Addr(need + 2)
  {
    var bs := Take(FreshBlocks(), 0, need);
    if 4 * need + 12 <= MB_HEXA {
      TakeWellFormed(FreshBlocks(), 0, need, 1);
      assert bs == [Block(0, need, false), Block(need + 2, MB_HEXA / 4 - need - 2, true)];
      assert CtrlAt(m, bs, 0) && PrevAt(m, bs, 0) && LinkAt(m, bs, 0);
      assert CtrlAt(m, bs, 1) && PrevAt(m, bs, 1) && LinkAt(m, bs, 1);
      assert NextFree(bs, 0) == 1;
    } else {
      assert bs[0] == Block(0, MB_HEXA / 4, false);
      assert !CtrlAt(m, bs, 0);
    }
  }

  /** The control word that the code leaves on a block it hands out. */
  function ReservedWord(n: int, rest: int, topBlockFlag: int): int {
    n + if rest < 12 then rest + (if topBlockFlag == 2 then TOP_BLOCK else 0) else 0
  }

  /** The code's note that the top block was taken, after a block was handed out with `rest` bytes to spare. */
  function FlagAfter(top: bool, rest: int, flag: int): int {
    if top && rest == 0 then 2 else flag
  }

  /** A block taken whole keeps the right header exactly when the code's note says whether it is the top block. A first
      taking of the top with 4 or 8 bytes to spare leaves no note, and its mark is lost. */
  lemma ReservedWordDescribes(b: Block, top: bool, n: int, flag: int)
    requires n <= 4 * b.len < n + 12 && n % 4 == 0
    ensures ReservedWord(n, 4 * b.len - n, FlagAfter(top, 4 * b.len - n, flag)) == CtrlWord(b.(free := false), top) <==>
      if top then 4 * b.len == n || flag == 2 else flag != 2
  {
  }

  lemma ReservedCtrl(m: seq<Word>, bs: seq<Block>, i: nat, need: int, flag: int)
    requires Tiled(bs) && i < |bs| && 1 <= need <= bs[i].len && ServedAt(bs, i, need, flag)
    requires i < |bs| - 1 ==> flag == 1
    requires W(m, bs[i].at) ==
      ReservedWord(4 * need, 4 * bs[i].len - 4 * need, FlagAfter(i == |bs| - 1, 4 * bs[i].len - 4 * need, flag))
    ensures CtrlAt(m, Take(bs, i, need), i)
  {
    TakeShape(bs, i, need);
    if bs[i].len - need < 3 { ReservedWordDescribes(bs[i], i == |bs| - 1, 4 * need, flag); }
  }

  /** The upper part of block i has been made a free block; the header of block i is still the old one. */
  ghost predicate UpperWritten(m: seq<Word>, m': seq<Word>, bs: seq<Block>, i: nat, need: int, bs': seq<Block>)
    requires i < |bs| && i + 1 < |bs'|
  {
    && SameOutside(m, m', bs[i].at, End(bs[i]), LinkIndex(bs, i))
    && (forall x :: bs[i].at <= x < bs[i].at + need + 2 ==> W(m', x) == W(m, x))
    && W(m', End(bs[i]) + 1) == 4 * bs'[i + 1].len
    && CtrlAt(m', bs', i + 1) && PrevAt(m', bs', i + 1)
  }

  /** The headers are those of bs', but for the control word of block i; links may be missing. */
  ghost predicate Carved(m: seq<Word>, m': seq<Word>, bs: seq<Block>, i: nat, bs': seq<Block>, j': nat)
    requires i < |bs| && i < j' <= |bs'|
  {
    && SameOutside(m, m', bs[i].at, End(bs[i]), LinkIndex(bs, i))
    && Ctrls(m', bs', 0, i) && Ctrls(m', bs', i + 1, |bs'|) && Prevs(m', bs', 0, |bs'|)
    && (i < |bs| - 1 ==> W(m', End(bs[i]) + 1) == 4 * bs'[j' - 1].len)
  }

  lemma CarvedOutside(m: seq<Word>, m2: seq<Word>, bs: seq<Block>, i: nat, bs': seq<Block>, j': nat)
    requires Tiled(bs) && Headed(m, bs) && Spliced(bs, i, i + 1, bs', j')
    requires SameOutside(m, m2, bs[i].at, End(bs[i]), LinkIndex(bs, i))
    requires i < |bs| - 1 ==> W(m2, End(bs[i]) + 1) == 4 * bs'[j' - 1].len
    requires Ctrls(m2, bs', i + 1, j') && Prevs(m2, bs', i, j')
    ensures Carved(m, m2, bs, i, bs', j')
  {
    LinkBelow(bs, i, i + 1);
    PrefixHeaders(m, m2, bs, i, End(bs[i]), bs');
    if i < |bs| - 1 {
      SuffixHeaders(m, m2, bs, i, i + 1, bs[i].at, LinkIndex(bs, i), bs', j');
    }
  }

  lemma CarvedSplit(m: seq<Word>, m1: seq<Word>, m2: seq<Word>, bs: seq<Block>, i: nat, need: int, bs': seq<Block>)
    requires Tiled(bs) && Headed(m, bs) && i < |bs| && 1 <= need <= bs[i].len - 3
    requires Split(bs, i, need, bs') && UpperWritten(m, m1, bs, i, need, bs')
    requires Stored(m1, m2, bs[i].at, 4 * need)
    ensures Carved(m, m2, bs, i, bs', i + 2)
  {
    LinkBelow(bs, i, i + 1);
    assert PrevAt(m, bs, i);
    assert PrevAt(m2, bs', i) && CtrlAt(m2, bs', i + 1) && PrevAt(m2, bs', i + 1);
    CarvedOutside(m, m2, bs, i, bs', i + 2);
  }

  lemma CarvedWhole(m: seq<Word>, m2: seq<Word>, bs: seq<Block>, i: nat, bs': seq<Block>, v: int)
    requires Tiled(bs) && Headed(m, bs) && i < |bs|
    requires Whole(bs, i, bs')
    requires Stored(m, m2, bs[i].at, v)
    ensures Carved(m, m2, bs, i, bs', i + 1)
  {
    LinkBelow(bs, i, i + 1);
    assert PrevAt(m, bs, i);
    assert PrevAt(m2, bs', i);
    if i < |bs| - 1 {
      assert PrevAt(m, bs, i + 1) && Joins(bs, i);
    }
    CarvedOutside(m, m2, bs, i, bs', i + 1);
  }

  /** With the control word of the block in place, and the link below it stored, the headers are those of bs'. */
  lemma {:induction false} CarvedHeaded(m: seq<Word>, m1: seq<Word>, m2: seq<Word>, bs: seq<Block>, i: nat,
          bs': seq<Block>, j': nat)
    requires Tiled(bs) && Tiled(bs') && i < |bs| && i < j' <= |bs'| && SamePrefix(bs, bs', i)
    requires Carved(m, m1, bs, i, bs', j') && CtrlAt(m1, bs', i)
    requires forall x :: x != LinkIndex(bs, i) ==> W(m2, x) == W(m1, x)
    ensures Headed(m2, bs')
    ensures SameOutside(m, m2, bs[i].at, End(bs[i]), LinkIndex(bs, i))
    ensures i < |bs| - 1 ==> W(m2, End(bs[i]) + 1) == 4 * bs'[j' - 1].len
  {
    LinkBelow(bs, i, i + 1);
    var p := PrevFree(bs, i);
    assert forall k :: 0 <= k < |bs'| ==> CtrlAt(m1, bs', k);
    assert p < 0 ==> forall x :: W(m2, x) == W(m1, x);
    PayloadStore(m1, m2, bs', if p < 0 then i else p);
  }

  /** If the links were right and the ones stored are, the words encode the heap with the block handed out. */
  lemma {:induction false} CarvedLinked(m: seq<Word>, m2: seq<Word>, bs: seq<Block>, i: nat, bs': seq<Block>, j': nat)
    requires Tiled(bs) && Encodes(m, bs) && Headed(m2, bs') && Spliced(bs, i, i + 1, bs', j') && j' <= i + 2
    requires SameOutside(m, m2, bs[i].at, End(bs[i]), LinkIndex(bs, i))
    requires i < |bs| - 1 ==> W(m2, End(bs[i]) + 1) == 4 * bs'[j' - 1].len
    requires !bs'[i].free && (j' == i + 2 ==> LinkAt(m2, bs', i + 1))
    requires PrevFree(bs, i) >= 0 ==> LinkAt(m2, bs', PrevFree(bs, i))
    ensures Encodes(m2, bs')
  {
    SpliceEncodes(m, m2, bs, i, i + 1, bs', j');
  }

  /** With nothing else free, the one link stored for the upper part is all there is. */
  lemma {:induction false} OnlyLink(m: seq<Word>, bs: seq<Block>, i: nat)
    requires i < |bs| && PrevFree(bs, i) == -1 && (bs[i].free ==> LinkAt(m, bs, i)) && i + 1 == |bs|
    ensures Linked(m, bs)
  {
    forall k | 0 <= k < |bs|
      ensures LinkAt(m, bs, k)
    {
      if k < i { PrevFreeSkips(bs, i, k); }
    }
  }

  /** The links after block i was handed out. */
  lemma TakenLinks(m: seq<Word>, m2: seq<Word>, bs: seq<Block>, i: nat, need: int, counter: int)
    requires WellFormed(bs) && i < |bs| && 1 <= need <= bs[i].len
    requires Headed(m, bs) && Tiled(Take(bs, i, need)) && Headed(m2, Take(bs, i, need))
    requires SameOutside(m, m2, bs[i].at, End(bs[i]), LinkIndex(bs, i))
    requires var bs', p := Take(bs, i, need), PrevFree(bs, i);
      && (i < |bs| - 1 ==> W(m2, End(bs[i]) + 1) == 4 * bs'[if bs[i].len - need >= 3 then i + 1 else i].len)
      && (bs[i].len - need >= 3 ==> LinkedTo(m2, bs', i + 1, Hop(bs', i + 1, counter)))
      && (p >= 0 ==> LinkedTo(m2, bs', p, Hop(bs', p, counter)))
    ensures Linked(m, bs) && counter > 15 ==> Linked(m2, Take(bs, i, need))
    ensures i == |bs| - 1 && PrevFree(bs, i) == -1 ==> Linked(m2, Take(bs, i, need))
  {
    var bs', j' := Take(bs, i, need), if bs[i].len - need >= 3 then i + 2 else i + 1;
    TakeShape(bs, i, need);
    if Linked(m, bs) && counter > 15 {
      CarvedLinked(m, m2, bs, i, bs', j');
    }
    if i == |bs| - 1 && PrevFree(bs, i) == -1 {
      OnlyLink(m2, bs', j' - 1);
    }
  }

  // ----- The states that `free` passes through -----

  /** Blocks i and i + 1 as one free block. */
  function JoinNext(bs: seq<Block>, i: nat): seq<Block>
    requires i + 1 < |bs|
  {
    bs[..i] + [Block(bs[i].at, bs[i].len + 2 + bs[i + 1].len, true)] + bs[i + 2..]
  }

  lemma JoinTiled(bs: seq<Block>, i: nat)
    requires Tiled(bs) && i + 1 < |bs|
    ensures Tiled(JoinNext(bs, i)) && Spliced(bs, i, i + 2, JoinNext(bs, i), i + 1)
    ensures JoinNext(bs, i)[i] == Block(bs[i].at, bs[i].len + 2 + bs[i + 1].len, true)
    ensures End(JoinNext(bs, i)[i]) == End(bs[i + 1])
    ensures TopFree(bs) ==> TopFree(JoinNext(bs, i))
    ensures bs[i + 1].at == End(bs[i])
  {
    assert Joins(bs, i);
    SpliceTiled(bs, i, [JoinNext(bs, i)[i]], i + 2);
  }

  /** The header of block i, and the `prev_size` after block i + 1, describe the joined block. */
  lemma JoinHeaders(m: seq<Word>, m': seq<Word>, bs: seq<Block>, i: nat)
    requires Tiled(bs) && i + 1 < |bs|
    requires Ctrls(m, bs, 0, |bs|) && Prevs(m, bs, 0, |bs|)
    requires SameOutside(m, m', bs[i].at, End(bs[i + 1]), -1)
    requires CtrlAt(m', JoinNext(bs, i), i) && W(m', bs[i].at + 1) == W(m, bs[i].at + 1)
    requires i + 2 < |bs| ==> W(m', End(bs[i + 1]) + 1) == 4 * (bs[i].len + 2 + bs[i + 1].len)
    ensures var bs' := JoinNext(bs, i); Ctrls(m', bs', 0, |bs'|) && Prevs(m', bs', 0, |bs'|)
  {
    JoinTiled(bs, i);
    assert PrevAt(m, bs, i);
    assert i > 0 ==> JoinNext(bs, i)[i - 1] == bs[i - 1];
    assert PrevAt(m', JoinNext(bs, i), i);
    SpliceHeaders(m, m', bs, i, i + 2, JoinNext(bs, i), i + 1);
  }

  /** A store into the link or the payload of block i changes no header. */
  lemma PayloadStore(m: seq<Word>, m': seq<Word>, bs: seq<Block>, i: nat)
    requires Tiled(bs) && i < |bs|
    requires Ctrls(m, bs, 0, |bs|) && Prevs(m, bs, 0, |bs|)
    requires forall x :: !(bs[i].at + 2 <= x < End(bs[i])) ==> W(m', x) == W(m, x)
    ensures Ctrls(m', bs, 0, |bs|) && Prevs(m', bs, 0, |bs|)
  {
    forall k | 0 <= k < |bs|
      ensures CtrlAt(m', bs, k) && PrevAt(m', bs, k)
    {
      assert CtrlAt(m, bs, k) && PrevAt(m, bs, k);
      if k < i { Ordered(bs, k, i); }
      if k > i { Ordered(bs, i, k); }
    }
  }

  /** bs with block i marked free, not yet joined with its neighbours. */
  function Marked(bs: seq<Block>, i: nat): seq<Block>
    requires i < |bs|
  {
    bs[i := bs[i].(free := true)]
  }

  function JoinedUp(bs: seq<Block>, i: nat): seq<Block>
    requires i < |bs|
  {
    if i + 1 < |bs| && bs[i + 1].free then JoinNext(bs, i) else bs
  }

  function JoinedDown(bs: seq<Block>, i: nat): seq<Block>
    requires i < |bs|
  {
    if i > 0 && bs[i - 1].free then JoinNext(bs, i - 1) else bs
  }

  lemma MarkedTiled(bs: seq<Block>, i: nat)
    requires Tiled(bs) && i < |bs|
    ensures Tiled(Marked(bs, i))
  {
    forall k | 0 <= k < |bs| - 1
      ensures Joins(Marked(bs, i), k)
    {
      assert Joins(bs, k);
    }
  }

  lemma MarkedHeaders(m: seq<Word>, m': seq<Word>, bs: seq<Block>, i: nat)
    requires Tiled(bs) && i < |bs|
    requires Ctrls(m, bs, 0, |bs|) && Prevs(m, bs, 0, |bs|)
    requires Stored(m, m', bs[i].at, CtrlWord(bs[i].(free := true), i == |bs| - 1))
    ensures var bs' := Marked(bs, i); Ctrls(m', bs', 0, |bs'|) && Prevs(m', bs', 0, |bs'|)
  {
    var bs' := Marked(bs, i);
    forall k | 0 <= k < |bs'|
      ensures CtrlAt(m', bs', k) && PrevAt(m', bs', k)
    {
      assert CtrlAt(m, bs, k) && PrevAt(m, bs, k);
      if k < i { Ordered(bs, k, i); }
      if k > i { Ordered(bs, i, k); }
    }
  }

  lemma {:induction false} JoinUpShape(bs: seq<Block>, i: nat)
    requires Tiled(bs) && i < |bs| && !bs[i].free
    ensures var b2, hi := JoinedUp(Marked(bs, i), i), High(bs, i);
      && Tiled(b2) && Spliced(bs, i, hi, b2, i + 1)
      && b2[i] == Block(bs[i].at, End(bs[hi - 1]) - bs[i].at - 2, true)
  {
    MarkedTiled(bs, i);
    if High(bs, i) == i + 2 {
      JoinTiled(Marked(bs, i), i);
      assert Joins(bs, i);
    }
  }

  lemma {:induction false} JoinDownShape(bs: seq<Block>, i: nat, hi: nat, b2: seq<Block>)
    requires Tiled(bs) && i < |bs| && !bs[i].free && hi == High(bs, i)
    requires Tiled(b2) && Spliced(bs, i, hi, b2, i + 1)
    requires b2[i] == Block(bs[i].at, End(bs[hi - 1]) - bs[i].at - 2, true)
    ensures JoinedDown(b2, i) == Release(bs, i)
  {
    if i > 0 {
      assert Joins(b2, i - 1) && b2[i - 1] == bs[i - 1];
      if bs[i - 1].free { JoinedWithLower(bs, i, hi, b2); } else { JoinedAlone(bs, i, hi, b2); }
    } else {
      JoinedAlone(bs, i, hi, b2);
    }
  }

  lemma {:induction false} JoinedAlone(bs: seq<Block>, i: nat, hi: nat, b2: seq<Block>)
    requires i < |bs| && hi == High(bs, i) && Low(bs, i) == i && Spliced(bs, i, hi, b2, i + 1)
    requires b2[i] == Block(bs[i].at, End(bs[hi - 1]) - bs[i].at - 2, true)
    ensures b2 == Release(bs, i)
  {
    var r := Release(bs, i);
    ReleaseReads(bs, i, i, hi, r);
    SameAcross(bs, r, b2, i, hi);
  }

  lemma {:induction false} JoinedWithLower(bs: seq<Block>, i: nat, hi: nat, b2: seq<Block>)
    requires 0 < i < |bs| && hi == High(bs, i) && Low(bs, i) == i - 1 && Spliced(bs, i, hi, b2, i + 1)
    requires b2[i] == Block(bs[i].at, End(bs[hi - 1]) - bs[i].at - 2, true)
    requires b2[i - 1] == bs[i - 1] && Joins(b2, i - 1)
    ensures JoinNext(b2, i - 1) == Release(bs, i)
  {
    var r, b3 := Release(bs, i), JoinNext(b2, i - 1);
    ReleaseReads(bs, i, i - 1, hi, r);
    JoinNextReads(b2, i - 1, b3);
    SameAcross(bs, r, b3, i - 1, hi);
  }

  /** Two sequences that are both bs with the run lo..hi replaced by one and the same block. */
  lemma SameAcross(bs: seq<Block>, xs: seq<Block>, ys: seq<Block>, lo: nat, hi: nat)
    requires lo < hi <= |bs| && |xs| == |ys| == lo + 1 + |bs| - hi && xs[lo] == ys[lo]
    requires SamePrefix(bs, xs, lo) && SamePrefix(bs, ys, lo)
    requires forall k {:trigger xs[k]} :: lo < k < |xs| ==> xs[k] == bs[k - lo - 1 + hi]
    requires forall k {:trigger ys[k]} :: lo < k < |ys| ==> ys[k] == bs[k - lo - 1 + hi]
    ensures xs == ys
  {
  }

  lemma ReleaseReads(bs: seq<Block>, i: nat, lo: nat, hi: nat, r: seq<Block>)
    requires i < |bs| && lo == Low(bs, i) && hi == High(bs, i) && r == Release(bs, i)
    ensures |r| == lo + 1 + |bs| - hi && r[lo] == Block(bs[lo].at, End(bs[hi - 1]) - bs[lo].at - 2, true)
    ensures SamePrefix(bs, r, lo)
    ensures forall k {:trigger r[k]} :: lo < k < |r| ==> r[k] == bs[k - lo - 1 + hi]
  {
  }

  lemma JoinNextReads(bs: seq<Block>, i: nat, bs': seq<Block>)
    requires i + 1 < |bs| && bs' == JoinNext(bs, i)
    ensures |bs'| == |bs| - 1 && bs'[i] == Block(bs[i].at, bs[i].len + 2 + bs[i + 1].len, true)
    ensures SamePrefix(bs, bs', i)
    ensures forall k {:trigger bs'[k]} :: i < k < |bs'| ==> bs'[k] == bs[k + 1]
  {
  }

  /** The free bit of a word. */
  ghost predicate FreeBit(m: seq<Word>, x: int) {
    HasFree(W(m, x))
  }

  /** The block that the word at index x would be the header of. */
  function HeaderAt(m: seq<Word>, x: int): Block {
    Block(x, SizeBits(W(m, x)) / 4, HasFree(W(m, x)))
  }

  lemma HeaderDescribes(m: seq<Word>, x: int)
    ensures Describes(m, HeaderAt(m, x), HasTop(W(m, x)))
  {
  }

  /** What is read as the header of the block above block i: that block's, or the word behind the heap. */
  lemma NextHeader(m: seq<Word>, bs: seq<Block>, i: nat, top: bool) returns (c: Block)
    requires Tiled(bs) && i < |bs| && Headed(m, bs) && top == HasTop(W(m, End(bs[i])))
    ensures c.at == End(bs[i]) && Describes(m, c, top) && 0 <= c.at <= HEAP_END
    ensures i + 1 < |bs| ==> c == bs[i + 1]
    ensures i + 1 == |bs| && !FreeBit(m, HEAP_END) ==> !c.free
  {
    InBounds(bs, i);
    HeaderDescribes(m, End(bs[i]));
    c := HeaderAt(m, End(bs[i]));
    if i + 1 < |bs| { assert Joins(bs, i) && CtrlAt(m, bs, i + 1); }
  }

  lemma NotMerged(m: seq<Word>, bs: seq<Block>, i: nat)
    requires i < |bs| && Headed(m, bs) && (i + 1 < |bs| ==> !bs[i + 1].free)
    ensures MergedUp(m, m, bs, i)
  {
  }

  lemma FreeBitOf(m: seq<Word>, b: Block, top: bool)
    requires Describes(m, b, top) && b.free
    ensures FreeBit(m, b.at)
  {
  }

  /** bs' is bs with the run lo..hi around block i joined into one free block. */
  ghost predicate Joined(bs: seq<Block>, i: nat, lo: nat, hi: nat, bs': seq<Block>) {
    && lo <= i < hi <= |bs| && i <= lo + 1 && hi <= i + 2
    && Spliced(bs, lo, hi, bs', lo + 1)
    && bs'[lo] == Block(bs[lo].at, End(bs[hi - 1]) - bs[lo].at - 2, true)
    && PrevFree(bs', lo) == PrevFree(bs, lo) && LinkIndex(bs', lo) == LinkIndex(bs, lo)
    && (lo < i ==> bs[lo].free && PrevFree(bs', i) == lo && LinkIndex(bs', i) == bs[lo].at + 2)
  }

  lemma ReleaseJoins(bs: seq<Block>, i: nat)
    requires WellFormed(bs) && i < |bs| && !bs[i].free
    ensures Joined(bs, i, Low(bs, i), High(bs, i), Release(bs, i))
  {
    Run(bs, i);
    PrevFreePrefix(bs, Release(bs, i), Low(bs, i));
  }

  /** The headers are those of the joined sequence bs'; only links may be missing. */
  ghost predicate Merged(m: seq<Word>, m': seq<Word>, bs: seq<Block>, i: nat, lo: nat, hi: nat, bs': seq<Block>)
    requires lo <= i < hi <= |bs|
  {
    && Ctrls(m', bs', 0, |bs'|) && Prevs(m', bs', 0, |bs'|)
    && (forall x ::
      x != bs[lo].at && x != bs[i].at && x != bs[i].at + 2 && x != bs[hi - 1].at && x != End(bs[hi - 1]) + 1 ==>
      W(m', x) == W(m, x))
    && FreeBit(m', bs[i].at) && FreeBit(m', bs[hi - 1].at)
  }

  /** What joining block i with the block above it changes in memory. */
  ghost predicate MergedUp(m: seq<Word>, m': seq<Word>, bs: seq<Block>, i: nat)
    requires i < |bs|
  {
    var bs' := JoinedUp(bs, i);
    && Headed(m', bs')
    && if i + 1 < |bs| && bs[i + 1].free then
        && FreeBit(m', bs[i + 1].at)
        && W(m', End(bs[i + 1]) + 1) == 4 * (bs[i].len + 2 + bs[i + 1].len)
        && forall x :: x != bs[i].at && x != bs[i].at + 2 && x != bs[i + 1].at && x != End(bs[i + 1]) + 1 ==>
          W(m', x) == W(m, x)
      else m' == m
  }

  /** What joining block i with the block below it changes in memory. */
  ghost predicate MergedDown(m: seq<Word>, m': seq<Word>, bs: seq<Block>, i: nat)
    requires i < |bs|
  {
    var bs' := JoinedDown(bs, i);
    && (!(i > 0 && bs[i - 1].free) ==> m' == m)
    && Ctrls(m', bs', 0, |bs'|) && Prevs(m', bs', 0, |bs'|)
    && FreeBit(m', bs[i].at)
    && (i == |bs| - 1 ==> W(m', End(bs[i]) + 1) == W(m, End(bs[i]) + 1))
    && forall x :: !(i > 0 && x == bs[i - 1].at) && x != bs[i].at && x != bs[i].at + 2 && x != End(bs[i]) + 1 ==>
      W(m', x) == W(m, x)
  }

  /** The sequences that freeing block i passes through. */
  lemma ReleaseSteps(bs: seq<Block>, i: nat)
    requires Tiled(bs) && i < |bs| && !bs[i].free && (TopFree(bs) || i == |bs| - 1)
    ensures var b1, b2 := Marked(bs, i), JoinedUp(Marked(bs, i), i);
      && i < |b1| && b1[i].free && b1[i].at == bs[i].at && Tiled(b1) && TopFree(b1)
      && (i == |b1| - 1 <==> i == |bs| - 1)
      && i < |b2| && b2[i].free && b2[i].at == bs[i].at && Tiled(b2) && (i > 0 ==> b2[i - 1] == bs[i - 1])
  {
    MarkedTiled(bs, i);
    JoinUpShape(bs, i);
  }

  lemma {:induction false} MergeSteps(m: seq<Word>, m1: seq<Word>, m2: seq<Word>, m3: seq<Word>, bs: seq<Block>,
          i: nat, b1: seq<Block>, b2: seq<Block>)
    requires Tiled(bs) && i < |bs| && !bs[i].free
    requires forall x :: x != bs[i].at ==> W(m1, x) == W(m, x)
    requires b1 == Marked(bs, i) && i < |b2| && b2 == JoinedUp(b1, i)
    requires MergedUp(m1, m2, b1, i) && MergedDown(m2, m3, b2, i)
    ensures Merged(m, m3, bs, i, Low(bs, i), High(bs, i), Release(bs, i))
  {
    JoinUpShape(bs, i);
    JoinDownShape(bs, i, High(bs, i), b2);
    EndJoined(bs, i, High(bs, i), b2[i]);
    MergedAll(m, m1, m2, m3, bs, i, Low(bs, i), High(bs, i), b1, b2, Release(bs, i));
  }

  lemma EndJoined(bs: seq<Block>, i: nat, hi: nat, b: Block)
    requires i < hi <= |bs| && b == Block(bs[i].at, End(bs[hi - 1]) - bs[i].at - 2, true)
    ensures End(b) == End(bs[hi - 1])
  {
  }

  lemma {:induction false} SlackSteps(m: seq<Word>, m1: seq<Word>, m2: seq<Word>, m3: seq<Word>, bs: seq<Block>,
          i: nat, b1: seq<Block>, b2: seq<Block>)
    requires Tiled(bs) && i < |bs| && !bs[i].free
    requires forall x :: x != bs[i].at ==> W(m1, x) == W(m, x)
    requires b1 == Marked(bs, i) && Tiled(b1) && i < |b2| && Tiled(b2)
    requires MergedUp(m1, m2, b1, i) && MergedDown(m2, m3, b2, i)
    ensures SlackFreed(m, m3, bs, i)
  {
    InBounds(bs, i);
    SlackUp(m1, m2, b1, i);
    SlackDown(m2, m3, b2, i);
  }

  /** What freeing block i leaves in the word behind the heap: the size of the block it makes together with a free top
      block directly above it. */
  ghost predicate SlackFreed(m: seq<Word>, m': seq<Word>, bs: seq<Block>, i: nat)
    requires i < |bs|
  {
    W(m', SLACK) == if i + 2 == |bs| && bs[i + 1].free then 4 * (bs[i].len + 2 + bs[i + 1].len) else W(m, SLACK)
  }

  lemma {:induction false} SlackUp(m: seq<Word>, m': seq<Word>, bs: seq<Block>, i: nat)
    requires Tiled(bs) && i < |bs| && MergedUp(m, m', bs, i)
    ensures SlackFreed(m, m', bs, i)
  {
    InBounds(bs, i);
    if i + 1 < |bs| { InBounds(bs, i + 1); }
    if i + 2 < |bs| {
      assert Joins(bs, i + 1);
      InBounds(bs, i + 2);
    }
  }

  lemma {:induction false} SlackDown(m: seq<Word>, m': seq<Word>, bs: seq<Block>, i: nat)
    requires Tiled(bs) && i < |bs| && MergedDown(m, m', bs, i)
    ensures W(m', SLACK) == W(m, SLACK)
  {
    InBounds(bs, i);
    if i > 0 { InBounds(bs, i - 1); }
    if i + 1 < |bs| {
      assert Joins(bs, i);
      InBounds(bs, i + 1);
    }
  }

  lemma {:induction false} MergedAll(m: seq<Word>, m1: seq<Word>, m2: seq<Word>, m3: seq<Word>, bs: seq<Block>,
          i: nat, lo: nat, hi: nat, b1: seq<Block>, b2: seq<Block>, b3: seq<Block>)
    requires Tiled(bs) && i < |bs| && lo == Low(bs, i) && hi == High(bs, i)
    requires b1 == Marked(bs, i)
    requires Spliced(bs, i, hi, b2, i + 1) && b2[i].at == bs[i].at && End(b2[i]) == End(bs[hi - 1])
    requires b3 == JoinedDown(b2, i)
    requires forall x :: x != bs[i].at ==> W(m1, x) == W(m, x)
    requires MergedUp(m1, m2, b1, i) && MergedDown(m2, m3, b2, i)
    ensures Merged(m, m3, bs, i, lo, hi, b3)
  {
    MergedWords(m, m1, m2, m3, bs, i, lo, hi, b1, b2);
  }

  lemma {:induction false} MergedWords(m: seq<Word>, m1: seq<Word>, m2: seq<Word>, m3: seq<Word>, bs: seq<Block>,
          i: nat, lo: nat, hi: nat, b1: seq<Block>, b2: seq<Block>)
    requires Tiled(bs) && i < |bs| && lo == Low(bs, i) && hi == High(bs, i) && b1 == Marked(bs, i)
    requires i < |b2| && b2[i].at == bs[i].at && End(b2[i]) == End(bs[hi - 1])
    requires i > 0 ==> b2[i - 1] == bs[i - 1]
    requires forall x :: x != bs[i].at ==> W(m1, x) == W(m, x)
    requires MergedUp(m1, m2, b1, i) && MergedDown(m2, m3, b2, i)
    ensures forall x ::
      x != bs[lo].at && x != bs[i].at && x != bs[i].at + 2 && x != bs[hi - 1].at && x != End(bs[hi - 1]) + 1 ==>
      W(m3, x) == W(m, x)
    ensures FreeBit(m3, bs[i].at) && FreeBit(m3, bs[hi - 1].at)
  {
    if i > 0 { Ordered(bs, i - 1, i); }
    if hi == i + 2 {
      assert Joins(bs, i);
      assert FreeBit(m2, bs[i + 1].at);
      assert W(m3, bs[i + 1].at) == W(m2, bs[i + 1].at);
    }
  }

  /** The link to a free block at index lo is the same for two sequences that agree below it. */
  lemma SameLinkTo(m: seq<Word>, m': seq<Word>, bs: seq<Block>, bs': seq<Block>, lo: nat)
    requires lo < |bs| && lo < |bs'| && SamePrefix(bs, bs', lo)
    requires bs[lo].free && bs'[lo].free && bs'[lo].at == bs[lo].at
    requires var p := PrevFree(bs, lo); p >= 0 ==> LinkAt(m, bs, p) && W(m', bs[p].at + 2) == W(m, bs[p].at + 2)
    ensures var p := PrevFree(bs, lo); p >= 0 ==> LinkAt(m', bs', p)
  {
    var p := PrevFree(bs, lo);
    PrevFreePrefix(bs, bs', lo);
    if p >= 0 {
      NextFreeUpTo(bs, p + 1, lo);
      NextFreeUpTo(bs', p + 1, lo);
    }
  }

  /** What the run of blocks joined by freeing block i looks like in memory. */
  lemma {:induction false} MergedRun(m2: seq<Word>, bs: seq<Block>, i: nat, lo: nat, hi: nat, bs': seq<Block>)
    requires Tiled(bs) && Tiled(bs') && lo <= i < hi <= |bs| && i <= |bs'| && lo < |bs'| && |bs'| - lo - 1 == |bs| - hi
    requires bs'[lo] == Block(bs[lo].at, End(bs[hi - 1]) - bs[lo].at - 2, true)
    requires Headed(m2, bs')
    ensures hi < |bs| ==> W(m2, End(bs[hi - 1]) + 1) == 4 * bs'[lo].len
  {
    if hi < |bs| {
      assert Joins(bs', lo) && PrevAt(m2, bs', lo + 1);
    }
  }

  /** If the links were right and the two repaired ones are, the words encode the joined sequence. */
  lemma {:induction false} MergedRelinked(m: seq<Word>, m1: seq<Word>, m2: seq<Word>, bs: seq<Block>, i: nat, lo: nat,
          hi: nat, bs': seq<Block>)
    requires Tiled(bs) && Encodes(m, bs) && Tiled(bs') && Joined(bs, i, lo, hi, bs')
    requires Merged(m, m1, bs, i, lo, hi, bs') && Headed(m2, bs')
    requires forall x :: x != bs[i].at + 2 && x != LinkIndex(bs', i) ==> W(m2, x) == W(m1, x)
    requires LinkAt(m2, bs', lo)
    requires PrevFree(bs', i) >= 0 ==> LinkAt(m2, bs', PrevFree(bs', i))
    ensures Encodes(m2, bs')
  {
    MergedOutside(m, m1, m2, bs, i, lo, hi, bs');
    MergedRun(m2, bs, i, lo, hi, bs');
    if lo < i { SameLinkBelow(m, m1, m2, bs, i, lo, hi, bs'); }
    SpliceEncodes(m, m2, bs, lo, hi, bs', lo + 1);
  }

  /** Freeing block i stores no link that skips a free block or leads to a reserved one, although no scan is made. */
  ghost predicate FreedAtTop(bs: seq<Block>, i: nat)
    requires i < |bs|
  {
    High(bs, i) == |bs| && (Low(bs, i) < i || PrevFree(bs, i) == -1)
  }

  /** Right links stay right exactly if the scans are on, or the block is joined with the top block and no link from
      below has to be repaired. */
  lemma {:induction false} MergedLinked(m: seq<Word>, m1: seq<Word>, m2: seq<Word>, bs: seq<Block>, i: nat, lo: nat,
          hi: nat, bs': seq<Block>, counter: int)
    requires WellFormed(bs) && Encodes(m, bs) && Tiled(bs') && Coalesced(bs') && Joined(bs, i, lo, hi, bs')
    requires !bs[i].free && lo == Low(bs, i) && hi == High(bs, i)
    requires Merged(m, m1, bs, i, lo, hi, bs') && Headed(m2, bs')
    requires forall x :: x != bs[i].at + 2 && x != LinkIndex(bs', i) ==> W(m2, x) == W(m1, x)
    requires LinkedTo(m2, bs', lo, Hop(bs', lo, counter))
    requires var p := PrevFree(bs', i); p >= 0 ==> LinkedTo(m2, bs', p, Hop(bs', p, counter))
    ensures Linked(m2, bs') <==> counter > 15 || FreedAtTop(bs, i)
  {
    var p := PrevFree(bs', i);
    HopLink(m2, bs', lo, counter);
    if p >= 0 { HopLink(m2, bs', p, counter); }
    if lo == i { PrevFreePrefix(bs, bs', i); }
    if LinkAt(m2, bs', lo) && (p >= 0 ==> LinkAt(m2, bs', p)) {
      MergedRelinked(m, m1, m2, bs, i, lo, hi, bs');
    }
  }

  lemma {:induction false} MergedOutside(m: seq<Word>, m1: seq<Word>, m2: seq<Word>, bs: seq<Block>, i: nat, lo: nat,
          hi: nat, bs': seq<Block>)
    requires Tiled(bs) && Joined(bs, i, lo, hi, bs') && Merged(m, m1, bs, i, lo, hi, bs')
    requires forall x :: x != bs[i].at + 2 && x != LinkIndex(bs', i) ==> W(m2, x) == W(m1, x)
    ensures SameOutside(m, m2, bs[lo].at, End(bs[hi - 1]), LinkIndex(bs, lo))
    ensures LinkIndex(bs', i) < bs[lo].at || LinkIndex(bs', i) == bs[lo].at + 2
    ensures lo < i ==> forall x :: x < bs[lo].at ==> W(m2, x) == W(m, x)
  {
    LinkBelow(bs, lo, hi);
    if lo < i { Ordered(bs, lo, i); }
    if i < hi - 1 { Ordered(bs, i, hi - 1); }
  }

  lemma {:induction false} SameLinkBelow(m: seq<Word>, m1: seq<Word>, m2: seq<Word>, bs: seq<Block>, i: nat, lo: nat,
          hi: nat, bs': seq<Block>)
    requires Tiled(bs) && Encodes(m, bs) && Joined(bs, i, lo, hi, bs') && lo < i
    requires Merged(m, m1, bs, i, lo, hi, bs')
    requires forall x :: x != bs[i].at + 2 && x != LinkIndex(bs', i) ==> W(m2, x) == W(m1, x)
    ensures PrevFree(bs, lo) >= 0 ==> LinkAt(m2, bs', PrevFree(bs, lo))
  {
    var p := PrevFree(bs, lo);
    Ordered(bs, lo, i);
    if i < hi - 1 { Ordered(bs, i, hi - 1); }
    if p >= 0 {
      assert LinkAt(m, bs, p);
      Ordered(bs, p, lo);
      SameLinkTo(m, m2, bs, bs', lo);
    }
  }

  // ----- Walking the links -----

  /** The block that ptr points to, from index k on, or |bs|. */
  function BlockAt(bs: seq<Block>, ptr: int, k: nat): (j: nat)
    requires k <= |bs|
    ensures k <= j <= |bs|
    ensures j < |bs| ==> ptr == Addr(bs[j].at)
    decreases |bs| - k
  {
    if k == |bs| || ptr == Addr(bs[k].at) then k else BlockAt(bs, ptr, k + 1)
  }

  lemma {:induction false} BlockAtFinds(bs: seq<Block>, k: nat, j: nat)
    requires Tiled(bs) && k <= j < |bs|
    ensures BlockAt(bs, Addr(bs[j].at), k) == j
    decreases |bs| - k
  {
    if k < j {
      Ordered(bs, k, j);
      BlockAtFinds(bs, k + 1, j);
    }
  }

  /** The code's note after that answer. */
  function FlagAnswered(bs: seq<Block>, i: nat, need: int, flag: int): int {
    if i < |bs| && bs[i].len >= need then FlagAfter(i == |bs| - 1, 4 * bs[i].len - 4 * need, flag) else flag
  }

  /** Where the search for `need` words stops that has come to block k: at the first block with room, or at the top
      block. The links may be wrong: |bs| says that one of them does not lead to a block further up. */
  function Walk(m: seq<Word>, bs: seq<Block>, need: int, k: nat): (i: nat)
    requires k < |bs|
    ensures k <= i <= |bs|
    decreases |bs| - k
  {
    if bs[k].len >= need || k == |bs| - 1 then k
    else
      var j := BlockAt(bs, W(m, bs[k].at + 2), k + 1);
      if j == |bs| then |bs| else Walk(m, bs, need, j)
  }

  /** A request the code answers without leaving the heap. */
  ghost predicate Allocatable(m: seq<Word>, bs: seq<Block>, flag: int, need: int)
    requires |bs| > 0
  {
    var i := Walk(m, bs, need, FirstIndex(bs));
    i < |bs| && (bs[i].len >= need ==> ServedAt(bs, i, need, flag))
  }

  /** The outcome of a search that stopped at block i: the block, or NULL and no change. */
  ghost predicate Answered(bs: seq<Block>, i: nat, need: int, p: int, bs': seq<Block>) {
    && i < |bs|
    && if bs[i].len >= need then p == Addr(bs[i].at) && bs' == Take(bs, i, need) else p == NULL && bs' == bs
  }

  /** The outcome of a request on a heap whose links are right: the first fit, or NULL and no change. */
  ghost predicate Allocated(bs: seq<Block>, need: int, p: int, bs': seq<Block>)
    requires |bs| > 0
  {
    var i := Pick(bs, need);
    if i < |bs| then p == Addr(bs[i].at) && bs' == Take(bs, i, need) else p == NULL && bs' == bs
  }

  lemma {:induction false} WalkFits(m: seq<Word>, bs: seq<Block>, need: int, k: nat)
    requires WellFormed(bs) && TopFree(bs) && Linked(m, bs) && k < |bs| && bs[k].free
    ensures Walk(m, bs, need, k) == var i := FirstFit(bs, need, k); if i < |bs| then i else |bs| - 1
    decreases |bs| - k
  {
    if bs[k].len < need && k < |bs| - 1 {
      assert LinkAt(m, bs, k);
      SearchGoesOn(bs, need, k);
      BlockAtFinds(bs, k + 1, NextFree(bs, k + 1));
      WalkFits(m, bs, need, NextFree(bs, k + 1));
    }
  }

  /** If the links are right, or none is followed, the search is a first fit. */
  lemma WalkPicks(m: seq<Word>, bs: seq<Block>, flag: int, need: int)
    requires WellFormed(bs) && (Linked(m, bs) || OnlyTop(bs))
    ensures Walk(m, bs, need, FirstIndex(bs)) == if Pick(bs, need) < |bs| then Pick(bs, need) else |bs| - 1
    ensures Pick(bs, need) == |bs| ==> bs[|bs| - 1].len < need
    ensures Allocatable(m, bs, flag, need) <==> Served(bs, need, flag)
    ensures forall p, bs' ::
      Answered(bs, Walk(m, bs, need, FirstIndex(bs)), need, p, bs') <==> Allocated(bs, need, p, bs')
  {
    SearchStarts(bs, need);
    FirstBelowTop(bs);
    if !OnlyTop(bs) { WalkFits(m, bs, need, FirstIndex(bs)); }
    if TopFree(bs) && Pick(bs, need) == |bs| { assert bs[|bs| - 1].len < need by { LastTooSmall(bs, need, 0); } }
  }

  lemma {:induction false} LastTooSmall(bs: seq<Block>, need: int, k: nat)
    requires TopFree(bs) && k < |bs| && FirstFit(bs, need, k) == |bs|
    ensures bs[|bs| - 1].len < need
    decreases |bs| - k
  {
    if k < |bs| - 1 { LastTooSmall(bs, need, k + 1); }
  }

  /** A free block that links to a reserved neighbour leads the search there: the next request that needs more room
      than it has is given the live block. */
  lemma WalkMisled(m: seq<Word>, bs: seq<Block>, flag: int, need: int, i: nat)
    requires WellFormed(bs) && i + 1 < |bs| - 1 && bs[i].free && FirstIndex(bs) == i
    requires LinkedTo(m, bs, i, i + 1) && bs[i].len < need <= bs[i + 1].len < need + 3
    ensures !bs[i + 1].free && Allocatable(m, bs, flag, need)
    ensures Walk(m, bs, need, FirstIndex(bs)) == i + 1 && Take(bs, i + 1, need) == bs
  {
    assert Apart(bs, i);
    BlockAtFinds(bs, i + 1, i + 1);
    assert bs[i + 1].(free := false) == bs[i + 1];
    assert Take(bs, i + 1, need) == bs[..i + 1] + [bs[i + 1]] + bs[i + 2..];
  }

  // ----- What callers rely on -----

  /** A block of nbytes, or up to 11 more, starts at p and is live. */
  ghost predicate Granted(bs: seq<Block>, p: int, nbytes: int) {
    exists b :: b in Live(bs) && Addr(b.at) == p && nbytes <= 4 * b.len <= nbytes + 11
  }

  lemma TakenGrants(bs: seq<Block>, i: nat, nbytes: int)
    requires Tiled(bs) && i < |bs| && 0 < nbytes && Need(nbytes) <= bs[i].len
    ensures Granted(Take(bs, i, Need(nbytes)), Addr(bs[i].at), nbytes)
  {
    NeedBytes(nbytes);
    TakeLive(bs, i, Need(nbytes));
    assert Taken(bs[i], Need(nbytes))[0] in Live(Take(bs, i, Need(nbytes)));
  }

  lemma AnswerBytes(bs: seq<Block>, i: nat, nbytes: int, p: int, bs': seq<Block>)
    requires Tiled(bs) && 0 < nbytes && Answered(bs, i, Need(nbytes), p, bs')
    ensures p != NULL ==> Granted(bs', p, nbytes)
    ensures p == NULL && TopFree(bs) && Allocated(bs, Need(nbytes), p, bs') ==>
      forall b :: b in bs && b.free ==> 4 * b.len < nbytes
  {
    if bs[i].len >= Need(nbytes) { TakenGrants(bs, i, nbytes); }
    if Pick(bs, Need(nbytes)) == |bs| && TopFree(bs) { NothingFits(bs, nbytes); }
    if Pick(bs, Need(nbytes)) < |bs| { InBounds(bs, Pick(bs, Need(nbytes))); }
  }

  /** If the search finds nothing, no free block has nbytes. */
  lemma NothingFits(bs: seq<Block>, nbytes: int)
    requires TopFree(bs) && 0 < nbytes && Pick(bs, Need(nbytes)) == |bs|
    ensures forall b :: b in bs && b.free ==> 4 * b.len < nbytes
  {
    NeedBytes(nbytes);
    forall b | b in bs && b.free
      ensures 4 * b.len < nbytes
    {
      var k :| 0 <= k < |bs| && bs[k] == b;
      FirstFitPasses(bs, Need(nbytes), 0, k);
    }
  }

  /** x is where a free block starts, or lies above its link; and the word there has the free bit. */
  ghost predicate FreeWordIn(m: seq<Word>, b: Block, x: int) {
    b.free && (x == b.at || b.at + 3 <= x < End(b)) && FreeBit(m, x)
  }

  /** A pointer that `free` takes for a freed one, and that no store to a header or a link will change. */
  ghost predicate TestsFree(m: seq<Word>, bs: seq<Block>, ptr: int) {
    ptr % 4 == 0 && exists k :: 0 <= k < |bs| && FreeWordIn(m, bs[k], (ptr - HEAP_BASE) / 4)
  }

  /** Every live block but the one at ptr is kept: its place, its size and its payload. */
  ghost predicate OthersKept(m: seq<Word>, m': seq<Word>, bs: seq<Block>, bs': seq<Block>, ptr: int) {
    forall b :: b in Live(bs) && Addr(b.at) != ptr ==> b in Live(bs') && SamePayload(m, m', b)
  }

  lemma PayloadKept(m: seq<Word>, m': seq<Word>, bs: seq<Block>, i: nat, j: nat, k: nat)
    requires Tiled(bs) && i < j <= |bs| && k < |bs| && !(i <= k < j) && !bs[k].free
    requires SameOutside(m, m', bs[i].at, End(bs[j - 1]), LinkIndex(bs, i))
    ensures SamePayload(m, m', bs[k])
  {
    var p := PrevFree(bs, i);
    if k < i {
      Ordered(bs, k, i);
      if 0 <= p < k { Ordered(bs, p, k); }
      if p > k { Ordered(bs, k, p); }
    } else {
      Ordered(bs, j - 1, k);
      LinkBelow(bs, i, j);
    }
  }

  lemma TakeKeepsOthers(m: seq<Word>, m': seq<Word>, bs: seq<Block>, i: nat, need: int)
    requires Tiled(bs) && i < |bs| && 1 <= need <= bs[i].len
    requires SameOutside(m, m', bs[i].at, End(bs[i]), LinkIndex(bs, i))
    ensures OthersKept(m, m', bs, Take(bs, i, need), Addr(bs[i].at))
  {
    TakeLive(bs, i, need);
    forall b | b in Live(bs) && b.at != bs[i].at
      ensures SamePayload(m, m', b)
    {
      var k :| 0 <= k < |bs| && bs[k] == b;
      PayloadKept(m, m', bs, i, i + 1, k);
    }
  }

  lemma ReleaseKeepsOthers(m: seq<Word>, m': seq<Word>, bs: seq<Block>, i: nat, lo: nat, hi: nat)
    requires WellFormed(bs) && i < |bs| && !bs[i].free && lo == Low(bs, i) && hi == High(bs, i)
    requires SameOutside(m, m', bs[lo].at, End(bs[hi - 1]), LinkIndex(bs, lo))
    ensures OthersKept(m, m', bs, Release(bs, i), Addr(bs[i].at))
  {
    ReleaseLive(bs, i);
    Run(bs, i);
    forall b | b in Live(bs) && b.at != bs[i].at
      ensures SamePayload(m, m', b)
    {
      var k :| 0 <= k < |bs| && bs[k] == b;
      PayloadKept(m, m', bs, lo, hi, k);
    }
  }

  /** The freed block's own header, and any header absorbed before, still have the free bit. */
  lemma {:induction false} StaysFree(m: seq<Word>, m1: seq<Word>, m2: seq<Word>, bs: seq<Block>, i: nat, lo: nat,
          hi: nat, bs': seq<Block>, k: nat, x: int)
    requires Tiled(bs) && Tiled(bs') && Headed(m2, bs') && Joined(bs, i, lo, hi, bs') &&
      Merged(m, m1, bs, i, lo, hi, bs')
    requires forall y :: y != bs[i].at + 2 && y != LinkIndex(bs', i) ==> W(m2, y) == W(m1, y)
    requires lo <= k < hi
    requires (bs[k].free && FreeWordIn(m, bs[k], x)) || (k == i && x == bs[i].at)
    ensures FreeWordIn(m2, bs'[lo], x)
  {
    if lo < k { Ordered(bs, lo, k); }
    if k < hi - 1 { Ordered(bs, k, hi - 1); }
    if lo < i { Ordered(bs, lo, i); }
    if i < hi - 1 { Ordered(bs, i, hi - 1); }
    LinkBelow(bs', lo, lo + 1);
    if x == bs[lo].at {
      assert CtrlAt(m2, bs', lo);
      FreeBitOf(m2, bs'[lo], lo == |bs'| - 1);
    } else {
      assert W(m2, x) == W(m1, x);
    }
  }

  /** Freeing live block i stays in the heap: the scan upwards ends at the free top block, or block i is itself the top
      and `behind`, the word behind the heap, is not taken for the header of a free block. */
  predicate Releasable(bs: seq<Block>, i: nat, behind: Word) {
    && i < |bs| && !bs[i].free
    && if i < |bs| - 1 then bs[|bs| - 1].free else if i == 0 then SizeBits(behind) == 0 else !HasFree(behind)
  }

  ghost predicate Freeable(m: seq<Word>, bs: seq<Block>, i: nat, ptr: int) {
    Releasable(bs, i, W(m, HEAP_END)) && ptr == Addr(bs[i].at)
  }

  lemma FreeableOne(m: seq<Word>, bs: seq<Block>, i: nat, j: nat, ptr: int)
    requires Tiled(bs) && Freeable(m, bs, i, ptr) && Freeable(m, bs, j, ptr)
    ensures i == j
  {
    if i < j { Ordered(bs, i, j); }
    if j < i { Ordered(bs, j, i); }
  }

  lemma FreeableWord(m: seq<Word>, bs: seq<Block>, i: nat, ptr: int)
    requires Tiled(bs) && Headed(m, bs) && Freeable(m, bs, i, ptr)
    ensures ptr == Addr((ptr - HEAP_BASE) / 4) && 0 <= (ptr - HEAP_BASE) / 4 < HEAP_END
    ensures !FreeBit(m, (ptr - HEAP_BASE) / 4)
  {
    InBounds(bs, i);
    assert CtrlAt(m, bs, i);
  }

  lemma TestsFreeWord(m: seq<Word>, bs: seq<Block>, ptr: int)
    requires Tiled(bs) && TestsFree(m, bs, ptr)
    ensures ptr == Addr((ptr - HEAP_BASE) / 4) && 0 <= (ptr - HEAP_BASE) / 4 < HEAP_END
    ensures FreeBit(m, (ptr - HEAP_BASE) / 4)
  {
    var k :| 0 <= k < |bs| && FreeWordIn(m, bs[k], (ptr - HEAP_BASE) / 4);
    InBounds(bs, k);
  }

  /** The free bit at ptr tells freed pointers from live ones. */
  lemma FreeBitDecides(m: seq<Word>, bs: seq<Block>, ptr: int)
    requires Tiled(bs) && Headed(m, bs)
    requires TestsFree(m, bs, ptr) || exists i: nat :: Freeable(m, bs, i, ptr)
    ensures ptr == Addr((ptr - HEAP_BASE) / 4) && 0 <= (ptr - HEAP_BASE) / 4 < HEAP_END
    ensures FreeBit(m, (ptr - HEAP_BASE) / 4) <==> TestsFree(m, bs, ptr)
    ensures FreeBit(m, (ptr - HEAP_BASE) / 4) <==> !exists i: nat :: Freeable(m, bs, i, ptr)
  {
    if TestsFree(m, bs, ptr) { TestsFreeWord(m, bs, ptr); }
    forall i: nat | Freeable(m, bs, i, ptr)
      ensures ptr == Addr((ptr - HEAP_BASE) / 4) && 0 <= (ptr - HEAP_BASE) / 4 < HEAP_END &&
        !FreeBit(m, (ptr - HEAP_BASE) / 4)
    {
      FreeableWord(m, bs, i, ptr);
    }
  }

  lemma NullNotLive(m: seq<Word>, bs: seq<Block>)
    requires Tiled(bs)
    ensures forall i: nat :: !Freeable(m, bs, i, NULL)
  {
    forall i: nat | Freeable(m, bs, i, NULL)
      ensures false
    {
      InBounds(bs, i);
    }
  }

  lemma FreedPlace(bs: seq<Block>, i: nat, lo: nat, hi: nat, bs': seq<Block>)
    requires Tiled(bs) && i < |bs| && !bs[i].free && Joined(bs, i, lo, hi, bs') && lo == Low(bs, i) && hi == High(bs, i)
    ensures i <= |bs'| && bs'[lo].at <= bs[i].at && bs[i].at + 2 < End(bs'[lo]) && (lo == i ==> bs[i].at == bs'[lo].at)
    ensures i > 0 ==> bs'[i - 1].at == bs[i - 1].at
    ensures i + 2 == |bs| && TopFree(bs) ==> hi == |bs|
  {
    if lo < i { Ordered(bs, lo, i); }
    if i < hi - 1 { Ordered(bs, i, hi - 1); }
  }

  lemma StaysFreeOutside(m: seq<Word>, m2: seq<Word>, bs: seq<Block>, lo: nat, hi: nat, k: nat, x: int)
    requires Tiled(bs) && lo < hi <= |bs| && k < |bs| && !(lo <= k < hi)
    requires SameOutside(m, m2, bs[lo].at, End(bs[hi - 1]), LinkIndex(bs, lo))
    requires FreeWordIn(m, bs[k], x)
    ensures FreeWordIn(m2, bs[k], x)
  {
    var p := PrevFree(bs, lo);
    if k < lo {
      Ordered(bs, k, lo);
      if 0 <= p < k { Ordered(bs, p, k); }
      if p > k { Ordered(bs, k, p); }
    } else {
      Ordered(bs, hi - 1, k);
      LinkBelow(bs, lo, hi);
      assert Joins(bs, hi - 1);
      if k > hi { Ordered(bs, hi, k); }
    }
  }

  lemma FreedAllStayFree(m: seq<Word>, m1: seq<Word>, m2: seq<Word>, bs: seq<Block>, i: nat, lo: nat, hi: nat,
          bs': seq<Block>)
    requires Tiled(bs) && Tiled(bs') && Headed(m2, bs') && Joined(bs, i, lo, hi, bs') &&
      Merged(m, m1, bs, i, lo, hi, bs')
    requires SameOutside(m, m2, bs[lo].at, End(bs[hi - 1]), LinkIndex(bs, lo))
    requires forall y :: y != bs[i].at + 2 && y != LinkIndex(bs', i) ==> W(m2, y) == W(m1, y)
    ensures forall q :: TestsFree(m, bs, q) || q == Addr(bs[i].at) ==> TestsFree(m2, bs', q)
  {
    forall q | TestsFree(m, bs, q) || q == Addr(bs[i].at)
      ensures TestsFree(m2, bs', q)
    {
      FreedStayFree(m, m1, m2, bs, i, lo, hi, bs', q);
    }
  }

  lemma {:induction false} FreedStayFree(m: seq<Word>, m1: seq<Word>, m2: seq<Word>, bs: seq<Block>, i: nat, lo: nat,
          hi: nat, bs': seq<Block>, q: int)
    requires Tiled(bs) && Tiled(bs') && Headed(m2, bs') && Joined(bs, i, lo, hi, bs') &&
      Merged(m, m1, bs, i, lo, hi, bs')
    requires SameOutside(m, m2, bs[lo].at, End(bs[hi - 1]), LinkIndex(bs, lo))
    requires forall y :: y != bs[i].at + 2 && y != LinkIndex(bs', i) ==> W(m2, y) == W(m1, y)
    requires TestsFree(m, bs, q) || q == Addr(bs[i].at)
    ensures TestsFree(m2, bs', q)
  {
    var x := (q - HEAP_BASE) / 4;
    var k: nat;
    if q == Addr(bs[i].at) {
      k := i;
    } else {
      k :| k < |bs| && FreeWordIn(m, bs[k], x);
    }
    var k' := if lo <= k < hi then lo else if k < lo then k else k - hi + lo + 1;
    if lo <= k < hi {
      StaysFree(m, m1, m2, bs, i, lo, hi, bs', k, x);
    } else {
      StaysFreeOutside(m, m2, bs, lo, hi, k, x);
      assert bs'[k'] == bs[k];
    }
    assert FreeWordIn(m2, bs'[k'], x);
  }

  /** What handing out block i leaves in the word behind the heap: the size of a new top block. */
  ghost predicate SlackTaken(m: seq<Word>, m': seq<Word>, bs: seq<Block>, i: nat, bs': seq<Block>) {
    W(m', SLACK) == if i == |bs| - 1 && |bs'| > |bs| then 4 * bs'[|bs'| - 1].len else W(m, SLACK)
  }

  /** What the first allocation leaves besides the two blocks: right links, and the words behind the heap as they
      were. */
  ghost predicate FirstTaken(m: seq<Word>, m': seq<Word>, bs': seq<Block>) {
    Linked(m', bs') && W(m', HEAP_END) == W(m, HEAP_END) && W(m', SLACK) == W(m, SLACK)
  }

  /** What handing out block i does to the other blocks, to the words behind the heap and to the links. */
  ghost predicate TakenAs(m: seq<Word>, m': seq<Word>, bs: seq<Block>, i: nat, bs': seq<Block>, counter: int)
    requires i < |bs|
  {
    && OthersKept(m, m', bs, bs', Addr(bs[i].at))
    && (|bs'| == |bs| ==> SamePayload(m, m', bs[i]))
    && W(m', HEAP_END) == W(m, HEAP_END) && SlackTaken(m, m', bs, i, bs')
    && (Linked(m, bs) && counter > 15 ==> Linked(m', bs'))
    && (OnlyTop(bs) && i == |bs| - 1 ==> Linked(m', bs'))
    && (Near(m, bs) && counter <= 15 ==> Near(m', bs'))
  }

  lemma {:induction false} TakenSoFar(m: seq<Word>, m2: seq<Word>, bs: seq<Block>, i: nat, need: int, counter: int)
    requires WellFormed(bs) && i < |bs| && 1 <= need <= bs[i].len
    requires Headed(m, bs) && Tiled(Take(bs, i, need)) && Headed(m2, Take(bs, i, need))
    requires SameOutside(m, m2, bs[i].at, End(bs[i]), LinkIndex(bs, i))
    requires var bs', p := Take(bs, i, need), PrevFree(bs, i);
      && (i < |bs| - 1 ==> W(m2, End(bs[i]) + 1) == 4 * bs'[if bs[i].len - need >= 3 then i + 1 else i].len)
      && (bs[i].len - need >= 3 ==> LinkedTo(m2, bs', i + 1, Hop(bs', i + 1, counter)))
      && (p >= 0 ==> LinkedTo(m2, bs', p, Hop(bs', p, counter)))
    requires bs[i].len - need < 3 ==> forall x :: x != bs[i].at && x != LinkIndex(bs, i) ==> W(m2, x) == W(m, x)
    requires bs[i].len - need >= 3 ==> W(m2, End(bs[i]) + 1) == 4 * (bs[i].len - need - 2)
    ensures TakenAs(m, m2, bs, i, Take(bs, i, need), counter)
  {
    TakenLinks(m, m2, bs, i, need, counter);
    if Near(m, bs) && counter <= 15 { TakenNear(m, m2, bs, i, need, counter); }
    TakeKeepsOthers(m, m2, bs, i, need);
    EndKept(m, m2, bs, i, i + 1);
    TakenSlack(m, m2, bs, i, need);
  }

  lemma {:induction false} TakenNear(m: seq<Word>, m2: seq<Word>, bs: seq<Block>, i: nat, need: int, counter: int)
    requires Tiled(bs) && i < |bs| && 1 <= need <= bs[i].len && Near(m, bs) && counter <= 15
    requires SameOutside(m, m2, bs[i].at, End(bs[i]), LinkIndex(bs, i))
    requires var bs', p := Take(bs, i, need), PrevFree(bs, i);
      && (bs[i].len - need >= 3 ==> LinkedTo(m2, bs', i + 1, Hop(bs', i + 1, counter)))
      && (p >= 0 ==> LinkedTo(m2, bs', p, Hop(bs', p, counter)))
    ensures Near(m2, Take(bs, i, need))
  {
    TakeShape(bs, i, need);
    SpliceNear(m, m2, bs, i, i + 1, Take(bs, i, need), if bs[i].len - need >= 3 then i + 2 else i + 1);
  }

  lemma {:induction false} TakenSlack(m: seq<Word>, m2: seq<Word>, bs: seq<Block>, i: nat, need: int)
    requires Tiled(bs) && i < |bs| && 1 <= need <= bs[i].len
    requires SameOutside(m, m2, bs[i].at, End(bs[i]), LinkIndex(bs, i))
    requires bs[i].len - need < 3 ==> forall x :: x != bs[i].at && x != LinkIndex(bs, i) ==> W(m2, x) == W(m, x)
    requires bs[i].len - need >= 3 ==> W(m2, End(bs[i]) + 1) == 4 * (bs[i].len - need - 2)
    ensures SlackTaken(m, m2, bs, i, Take(bs, i, need))
    ensures |Take(bs, i, need)| == |bs| ==> SamePayload(m, m2, bs[i])
  {
    TakeShape(bs, i, need);
    LinkBelow(bs, i, i + 1);
    InBounds(bs, i);
    if i < |bs| - 1 {
      assert Joins(bs, i);
      InBounds(bs, i + 1);
    }
  }

  lemma TakenFlag(bs: seq<Block>, i: nat, need: int, flag: int)
    requires WellFormed(bs) && i < |bs| && 1 <= need <= bs[i].len && ServedAt(bs, i, need, flag)
    requires (!OnlyTop(bs) ==> flag == 1) && (OnlyTop(bs) ==> i == |bs| - 1)
    ensures !OnlyTop(Take(bs, i, need)) ==> FlagAfter(i == |bs| - 1, 4 * bs[i].len - 4 * need, flag) == 1
  {
    TakeShape(bs, i, need);
  }

  /** What freeing block i does to the other blocks, to the pointers freed before, to the words behind the
      heap and to the links. */
  ghost predicate FreedAs(m: seq<Word>, m': seq<Word>, bs: seq<Block>, i: nat, counter: int)
    requires i < |bs|
  {
    var bs', lo := Release(bs, i), Low(bs, i);
    && OthersKept(m, m', bs, bs', Addr(bs[i].at))
    && (forall q :: TestsFree(m, bs, q) || q == Addr(bs[i].at) ==> TestsFree(m', bs', q))
    && W(m', HEAP_END) == W(m, HEAP_END) && SlackFreed(m, m', bs, i)
    && if |bs| == 1 then SamePayload(m, m', bs[0]) else
      && LinkedTo(m', bs', lo, Hop(bs', lo, counter))
      && (Linked(m, bs) ==> (Linked(m', bs') <==> counter > 15 || FreedAtTop(bs, i)))
      && (OnlyTop(bs') ==> Linked(m', bs'))
      && (Near(m, bs) && counter <= 15 ==> Near(m', bs'))
  }

  /** The word behind the heap is not the allocator's. */
  lemma EndKept(m: seq<Word>, m': seq<Word>, bs: seq<Block>, i: nat, j: nat)
    requires Tiled(bs) && i < j <= |bs|
    requires SameOutside(m, m', bs[i].at, End(bs[j - 1]), LinkIndex(bs, i))
    ensures W(m', HEAP_END) == W(m, HEAP_END)
  {
    LinkBelow(bs, i, j);
    if j < |bs| { Ordered(bs, j - 1, |bs| - 1); }
  }

  lemma FreedSoFar(m: seq<Word>, m1: seq<Word>, m2: seq<Word>, bs: seq<Block>, i: nat, lo: nat, hi: nat,
          bs': seq<Block>, counter: int)
    requires WellFormed(bs) && Headed(m, bs) && i < |bs| && !bs[i].free && (TopFree(bs) || i == |bs| - 1)
    requires lo == Low(bs, i) && hi == High(bs, i) && bs' == Release(bs, i)
    requires WellFormed(bs') && Headed(m2, bs') && Joined(bs, i, lo, hi, bs') && Merged(m, m1, bs, i, lo, hi, bs')
    requires forall x :: x != bs[i].at + 2 && x != LinkIndex(bs', i) ==> W(m2, x) == W(m1, x)
    requires LinkedTo(m2, bs', lo, Hop(bs', lo, counter))
    requires var p := PrevFree(bs', i); p >= 0 ==> LinkedTo(m2, bs', p, Hop(bs', p, counter))
    requires |bs| > 1 && SlackFreed(m, m1, bs, i)
    ensures FreedAs(m, m2, bs, i, counter)
  {
    MergedOutside(m, m1, m2, bs, i, lo, hi, bs');
    ReleaseKeepsOthers(m, m2, bs, i, lo, hi);
    FreedAllStayFree(m, m1, m2, bs, i, lo, hi, bs');
    EndKept(m, m2, bs, lo, hi);
    FreedSlack(m, m1, m2, bs, i, bs');
    FreedLinks(m, m1, m2, bs, i, lo, hi, bs', counter);
  }

  lemma {:induction false} FreedLinks(m: seq<Word>, m1: seq<Word>, m2: seq<Word>, bs: seq<Block>, i: nat, lo: nat,
          hi: nat, bs': seq<Block>, counter: int)
    requires WellFormed(bs) && Headed(m, bs) && i < |bs| && !bs[i].free
    requires lo == Low(bs, i) && hi == High(bs, i)
    requires WellFormed(bs') && Headed(m2, bs') && Joined(bs, i, lo, hi, bs') && Merged(m, m1, bs, i, lo, hi, bs')
    requires forall x :: x != bs[i].at + 2 && x != LinkIndex(bs', i) ==> W(m2, x) == W(m1, x)
    requires LinkedTo(m2, bs', lo, Hop(bs', lo, counter))
    requires var p := PrevFree(bs', i); p >= 0 ==> LinkedTo(m2, bs', p, Hop(bs', p, counter))
    ensures Linked(m, bs) ==> (Linked(m2, bs') <==> counter > 15 || FreedAtTop(bs, i))
    ensures OnlyTop(bs') ==> Linked(m2, bs')
    ensures Near(m, bs) && counter <= 15 ==> Near(m2, bs')
  {
    MergedOutside(m, m1, m2, bs, i, lo, hi, bs');
    if Linked(m, bs) { MergedLinked(m, m1, m2, bs, i, lo, hi, bs', counter); }
    if OnlyTop(bs') { FreedOnly(m2, bs', lo, counter); }
    if Near(m, bs) && counter <= 15 { FreedNear(m, m2, bs, i, lo, hi, bs', counter); }
  }

  lemma FreedOnly(m: seq<Word>, bs: seq<Block>, lo: nat, counter: int)
    requires WellFormed(bs) && OnlyTop(bs) && lo < |bs| && bs[lo].free && LinkedTo(m, bs, lo, Hop(bs, lo, counter))
    ensures Linked(m, bs)
  {
    if lo < |bs| - 1 { PrevFreeSkips(bs, |bs| - 1, lo); }
    HopLink(m, bs, lo, counter);
    OnlyLink(m, bs, lo);
  }

  lemma {:induction false} FreedNear(m: seq<Word>, m2: seq<Word>, bs: seq<Block>, i: nat, lo: nat, hi: nat,
          bs': seq<Block>, counter: int)
    requires Tiled(bs) && Joined(bs, i, lo, hi, bs') && Near(m, bs) && counter <= 15
    requires SameOutside(m, m2, bs[lo].at, End(bs[hi - 1]), LinkIndex(bs, lo))
    requires lo < i ==> forall x :: x < bs[lo].at ==> W(m2, x) == W(m, x)
    requires LinkedTo(m2, bs', lo, Hop(bs', lo, counter))
    requires var p := PrevFree(bs', i); p >= 0 ==> LinkedTo(m2, bs', p, Hop(bs', p, counter))
    ensures Near(m2, bs')
  {
    var p := PrevFree(bs, lo);
    if p >= 0 && lo < i {
      assert NearAt(m, bs, p);
      Ordered(bs, p, lo);
    }
    SpliceNear(m, m2, bs, lo, hi, bs', lo + 1);
  }

  lemma {:induction false} FreedSlack(m: seq<Word>, m1: seq<Word>, m2: seq<Word>, bs: seq<Block>, i: nat,
          bs': seq<Block>)
    requires Tiled(bs) && Tiled(bs') && i < |bs| && i <= |bs'| && SlackFreed(m, m1, bs, i)
    requires forall x :: x != bs[i].at + 2 && x != LinkIndex(bs', i) ==> W(m2, x) == W(m1, x)
    ensures SlackFreed(m, m2, bs, i)
  {
    InBounds(bs, i);
    if PrevFree(bs', i) >= 0 { InBounds(bs', PrevFree(bs', i)); }
  }

  lemma FreedWhole(m: seq<Word>, m2: seq<Word>, bs: seq<Block>, counter: int)
    requires WellFormed(bs) && |bs| == 1 && !bs[0].free && Headed(m2, Marked(bs, 0))
    requires forall x :: x != bs[0].at ==> W(m2, x) == W(m, x)
    ensures Release(bs, 0) == Marked(bs, 0) && FreedAs(m, m2, bs, 0, counter)
  {
    var bs' := Release(bs, 0);
    assert bs' == [bs[0].(free := true)];
    assert CtrlAt(m2, Marked(bs, 0), 0);
    FreeBitOf(m2, bs'[0], true);
    assert FreeWordIn(m2, bs'[0], bs[0].at);
    assert forall b :: b in Live(bs) ==> b == bs[0];
  }
}
