/** `malloc` and `free` over the words of the heap. Each method is proved against the block
    sequence it leaves, `Take` or `Release` of the one it found. */
module HeapAllocator {
  import opened HeapBlocks
  import opened HeapWords
  import opened Machine

  class Heap {
    const words: array<Word>
    var firstFree: int
    var heapInitialized: int
    var counter: int
    var mergeFlag: int
    var topBlockFlag: int
    var noFreeSpace: int
    ghost var blocks: seq<Block>
    // The pointers passed to `free` since the last allocation.
    ghost var freed: set<int>
    // Whether `find_next_free` was ever asked before `counter` passed 15, when it does not scan.
    ghost var scanSkipped: bool

    /** Between calls, the words hold the headers of `blocks`, and every pointer freed since the last allocation tests
        free. Of the links only the start is promised here. */
    ghost predicate Valid()
      reads this, words
    {
      && words.Length == MEM_WORDS
      && WellFormed(blocks)
      && (if heapInitialized == 1 then blocks == FreshBlocks() && freed == {} else Headed(words[..], blocks))
      && firstFree == PtrAt(blocks, FirstIndex(blocks))
      && mergeFlag == 1 && noFreeSpace == 1
      && (!OnlyTop(blocks) ==> topBlockFlag == 1)
      && (forall q :: q in freed ==> TestsFree(words[..], blocks, q))
    }

    /** All links are right. A heap whose scans are still off can lose this, see Free. */
    ghost predicate AllLinked()
      reads this, words
    {
      heapInitialized == 1 || Linked(words[..], blocks)
    }

    /** A request that `malloc` answers without leaving the heap. */
    ghost predicate Admits(nbytes: int)
      requires |blocks| > 0
      reads this, words
    {
      && 0 < nbytes <= 0xFFFF_FFFC
      && if heapInitialized == 1 then RoundUp(nbytes) + 12 <= MB_HEXA
        else Allocatable(words[..], blocks, topBlockFlag, Need(nbytes))
    }

    constructor ()
      ensures Valid() && AllLinked() && heapInitialized == 1 && counter == 1 && topBlockFlag == 1 && fresh(words)
      ensures !scanSkipped
      ensures blocks == FreshBlocks()
    {
      words := new Word[MEM_WORDS];
      firstFree, heapInitialized, counter := HEAP_BASE, 1, 1;
      mergeFlag, topBlockFlag, noFreeSpace := 1, 1, 1;
      blocks, freed, scanSkipped := FreshBlocks(), {}, false;
    }

    // ----- Reading and writing headers -----

    method Load(ptr: int, f: int, ghost at: int) returns (v: Word)
      requires words.Length == MEM_WORDS && ptr == Addr(at) && 0 <= at && 0 <= f && at + f < MEM_WORDS
      ensures v == W(words[..], at + f)
    {
      v := words[(ptr - HEAP_BASE) / 4 + f];
    }

    method Store(ptr: int, f: int, v: Word, ghost at: int)
      requires words.Length == MEM_WORDS && ptr == Addr(at) && 0 <= at && 0 <= f && at + f < MEM_WORDS
      modifies words
      ensures Stored(old(words[..]), words[..], at + f, v)
    {
      words[(ptr - HEAP_BASE) / 4 + f] := v;
    }

    method BlockIsFree(ptr: int, ghost b: Block, ghost top: bool) returns (r: bool)
      requires words.Length == MEM_WORDS && ptr == Addr(b.at) && 0 <= b.at < MEM_WORDS && Describes(words[..], b, top)
      ensures r == b.free
    {
      var ctrl := Load(ptr, 0, b.at);
      r := HasFree(ctrl);
    }

    method BlockIsTop(ptr: int, ghost b: Block, ghost top: bool) returns (r: bool)
      requires words.Length == MEM_WORDS && ptr == Addr(b.at) && 0 <= b.at < MEM_WORDS && Describes(words[..], b, top)
      ensures r == top
    {
      var ctrl := Load(ptr, 0, b.at);
      r := HasTop(ctrl);
    }

    method BlockSize(ptr: int, ghost b: Block, ghost top: bool) returns (size: Word)
      requires words.Length == MEM_WORDS && ptr == Addr(b.at) && 0 <= b.at < MEM_WORDS && Describes(words[..], b, top)
      ensures size == 4 * b.len
    {
      var ctrl := Load(ptr, 0, b.at);
      size := SizeBits(ctrl);
    }

    /** ctrl |= TOP_BLOCK */
    method OrTop(ptr: int, ghost b: Block, ghost top: bool)
      requires words.Length == MEM_WORDS && ptr == Addr(b.at) && 0 <= b.at < MEM_WORDS && Describes(words[..], b, top)
      modifies words
      ensures Stored(old(words[..]), words[..], b.at, CtrlWord(b, true))
    {
      var ctrl := Load(ptr, 0, b.at);
      WordParts(ctrl, b.len, CtrlWord(b, top) - 4 * b.len);
      Store(ptr, 0, if HasTop(ctrl) then ctrl else ctrl + TOP_BLOCK, b.at);
    }

    /** ctrl &= ~TOP_BLOCK */
    method ClearTop(ptr: int, ghost b: Block, ghost top: bool)
      requires words.Length == MEM_WORDS && ptr == Addr(b.at) && 0 <= b.at < MEM_WORDS && Describes(words[..], b, top)
      modifies words
      ensures Stored(old(words[..]), words[..], b.at, CtrlWord(b, false))
    {
      var ctrl := Load(ptr, 0, b.at);
      WordParts(ctrl, b.len, CtrlWord(b, top) - 4 * b.len);
      Store(ptr, 0, ctrl - ctrl % 2, b.at);
    }

    /** ctrl |= FREE_BLOCK */
    method OrFree(ptr: int, ghost b: Block, ghost top: bool)
      requires words.Length == MEM_WORDS && ptr == Addr(b.at) && 0 <= b.at < MEM_WORDS && Describes(words[..], b, top)
      modifies words
      ensures Stored(old(words[..]), words[..], b.at, CtrlWord(b.(free := true), top))
    {
      var ctrl := Load(ptr, 0, b.at);
      WordParts(ctrl, b.len, CtrlWord(b, top) - 4 * b.len);
      Store(ptr, 0, if HasFree(ctrl) then ctrl else ctrl + FREE_BLOCK, b.at);
    }

    // ----- Walks -----

    /** The next free block above block i, or NULL if i is the top block. While `counter` is at most 15
        the scan is skipped, and the answer is right just when the neighbour is free. */
    method FindNextFree(ptr: int, ghost bs: seq<Block>, ghost i: nat) returns (p: Word)
      requires words.Length == MEM_WORDS
      requires Tiled(bs) && i < |bs| && ptr == Addr(bs[i].at)
      requires counter > 15 && i + 1 < |bs| ==> TopFree(bs)
      requires Ctrls(words[..], bs, i, |bs|)
      modifies this`scanSkipped
      ensures p == PtrAt(bs, Hop(bs, i, counter))
      ensures p == PtrAt(bs, NextFree(bs, i + 1)) <==> counter > 15 || i + 1 == |bs| || bs[i + 1].free
      ensures scanSkipped == (old(scanSkipped) || counter <= 15)
    {
      scanSkipped := scanSkipped || counter <= 15;
      InBounds(bs, i);
      HopExact(bs, i, counter);
      assert CtrlAt(words[..], bs, i);
      var isTop := BlockIsTop(ptr, bs[i], i == |bs| - 1);
      if isTop {
        return NULL;
      }
      var size := BlockSize(ptr, bs[i], i == |bs| - 1);
      var next := ptr + size + 8;
      ghost var k := i + 1;
      assert Joins(bs, i);
      InBounds(bs, k);
      if counter > 15 {
        if NextFree(bs, k) == |bs| { NextFreeSkips(bs, k, |bs| - 1); }
        assert CtrlAt(words[..], bs, k);
        var isFree := BlockIsFree(next, bs[k], k == |bs| - 1);
        while !isFree
          invariant i < k < |bs| && next == Addr(bs[k].at) && InHeap(bs[k])
          invariant CtrlAt(words[..], bs, k) && isFree == bs[k].free
          invariant NextFree(bs, i + 1) == NextFree(bs, k) && scanSkipped == old(scanSkipped)
          decreases |bs| - k
        {
          size := BlockSize(next, bs[k], k == |bs| - 1);
          assert Joins(bs, k);
          next := next + size + 8;
          k := k + 1;
          InBounds(bs, k);
          assert CtrlAt(words[..], bs, k);
          isFree := BlockIsFree(next, bs[k], k == |bs| - 1);
        }
      }
      return next;
    }

    /** Of block i only the free bit and the `prev_size` are read: b stands for it while its header is in flux. */
    method FindPrevFree(ptr: int, ghost bs: seq<Block>, ghost i: int, ghost b: Block, ghost top: bool) returns (p: int)
      requires words.Length == MEM_WORDS
      requires Tiled(bs) && -1 <= i < |bs|
      requires ptr == if i < 0 then HEAP_BASE - 8 else Addr(bs[i].at)
      requires i >= 0 ==> InHeap(b) && b.at == bs[i].at && Describes(words[..], b, top)
      requires i >= 0 ==> Ctrls(words[..], bs, 0, i) && Prevs(words[..], bs, 0, i + 1)
      ensures p == PtrOrNull(bs, if i < 0 then -1 else if b.free then i else PrevFree(bs, i))
      ensures i >= 0 && PrevFree(bs, i) >= 0 ==> InHeap(bs[PrevFree(bs, i)])
    {
      var prev := ptr;
      var stop := true;
      if i >= 0 { InBounds(bs, i); }
      if i >= 0 && PrevFree(bs, i) >= 0 { InBounds(bs, PrevFree(bs, i)); }
      if prev >= HEAP_BASE {
        stop := BlockIsFree(prev, b, top);
      }
      ghost var k := i;
      ghost var target := if i < 0 then -1 else if b.free then i else PrevFree(bs, i);
      while !stop
        invariant -1 <= k <= i
        invariant prev == if k < 0 then HEAP_BASE - 8 else Addr(bs[k].at)
        invariant k >= 0 ==> InHeap(bs[k])
        invariant stop ==> k == target
        invariant !stop ==> k >= 0 && target == PrevFree(bs, k)
        decreases k
      {
        assert PrevAt(words[..], bs, k);
        if k > 0 {
          assert Joins(bs, k - 1);
          InBounds(bs, k - 1);
        }
        var size := Load(prev, 1, bs[k].at);
        if prev - size - 8 < HEAP_BASE || prev - size - 8 > HEAP_BASE + MB_HEXA {
          return NULL;
        }
        assert CtrlAt(words[..], bs, k - 1);
        prev := prev - size - 8;
        k := k - 1;
        stop := BlockIsFree(prev, bs[k], k == |bs| - 1);
      }
      return if prev >= HEAP_BASE then prev else NULL;
    }

    /** Points `first_free_block` to the first free block, or to the top block if there is none. The code's own
        way out of the loop, which would close the heap for good, asks for what the loop condition has just denied. */
    method UpdateFirstFreeBlock(ghost bs: seq<Block>)
      requires words.Length == MEM_WORDS
      requires Tiled(bs) && Ctrls(words[..], bs, 0, |bs|)
      modifies this`firstFree
      ensures firstFree == PtrAt(bs, FirstIndex(bs))
    {
      var hb := HEAP_BASE;
      ghost var k := 0;
      InBounds(bs, 0);
      assert CtrlAt(words[..], bs, 0);
      var isFree := BlockIsFree(hb, bs[0], 0 == |bs| - 1);
      var isTop := BlockIsTop(hb, bs[0], 0 == |bs| - 1);
      while !isFree && !isTop
        invariant 0 <= k < |bs| && hb == Addr(bs[k].at) && InHeap(bs[k])
        invariant CtrlAt(words[..], bs, k) && isFree == bs[k].free && isTop == (k == |bs| - 1)
        invariant NextFree(bs, 0) == NextFree(bs, k)
        decreases |bs| - k
      {
        var size := BlockSize(hb, bs[k], k == |bs| - 1);
        assert Joins(bs, k);
        hb := hb + size + 8;
        k := k + 1;
        InBounds(bs, k);
        assert CtrlAt(words[..], bs, k);
        isFree := BlockIsFree(hb, bs[k], k == |bs| - 1);
        isTop := BlockIsTop(hb, bs[k], k == |bs| - 1);
      }
      firstFree := hb;
    }

    // ----- malloc -----

    /** Writes the header of the upper part of a block that is too large, and the `prev_size` after it. */
    method WriteAbove(hb: int, n: int, ghost b: Block, ghost top: bool, ghost above: Block)
      requires words.Length == MEM_WORDS && InHeap(b) && hb == Addr(b.at) && Describes(words[..], b, top)
      requires n == 4 * (b.len - 2 - above.len) && 1 <= above.len <= b.len - 3
      requires above == Block(b.at + b.len - above.len, above.len, true)
      modifies words
      ensures forall x :: x != above.at && x != above.at + 1 && x != End(b) + 1 ==>
        W(words[..], x) == W(old(words[..]), x)
      ensures Describes(words[..], above, top)
      ensures W(words[..], above.at + 1) == n
      ensures W(words[..], End(b) + 1) == 4 * above.len
    {
      var size := BlockSize(hb, b, top);
      var hbAbove := hb + n + 8;
      Store(hbAbove, 0, size - n - 8 + FREE_BLOCK, above.at);
      var isTop := BlockIsTop(hb, b, top);
      if isTop {
        OrTop(hbAbove, above, false);
      }
      Store(hbAbove, 1, n, above.at);
      var rest := BlockSize(hbAbove, above, top);
      Store(hbAbove + rest + 8, 1, rest, End(b));
    }

    /** Links the new upper part: the free block below points to it, and it to where `find_next_free` says. */
    method LinkAbove(hb: int, below: int, above: int, ghost b: Block, ghost bs: seq<Block>, ghost i: nat)
      requires words.Length == MEM_WORDS && 0 < i < |bs|
      requires Tiled(bs) && TopFree(bs) && bs[i].free && !bs[i - 1].free && above == Addr(bs[i].at)
      requires below == if i == 1 then HEAP_BASE - 8 else Addr(bs[i - 2].at)
      requires Ctrls(words[..], bs, 0, i - 1) && Prevs(words[..], bs, 0, i - 1) && Ctrls(words[..], bs, i, |bs|)
      requires hb == Addr(b.at) && b.at == bs[i - 1].at && InHeap(b) && Describes(words[..], b, i == |bs| - 1)
      modifies words, this`scanSkipped
      ensures forall x :: x != bs[i].at + 2 && x != LinkIndex(bs, i) ==> W(words[..], x) == W(old(words[..]), x)
      ensures LinkedTo(words[..], bs, i, Hop(bs, i, counter))
      ensures counter > 15 || i == |bs| - 1 ==> scanSkipped == old(scanSkipped)
    {
      InBounds(bs, i);
      assert CtrlAt(words[..], bs, i);
      LinkBelow(bs, i - 1, i);
      assert Joins(bs, i - 1) && LinkIndex(bs, i) == LinkIndex(bs, i - 1);
      ghost var m := words[..];
      if i > 1 {
        InBounds(bs, i - 2);
        assert CtrlAt(words[..], bs, i - 2);
      }
      var p := FindPrevFree(below, bs, i - 2, bs[if i > 1 then i - 2 else 0], false);
      // With no free block below, the code stores through a null pointer, outside the heap.
      if p != NULL {
        Store(p, 2, above, bs[PrevFree(bs, i)].at);
      }
      CtrlsFrom(m, words[..], bs, i);
      var isTop := BlockIsTop(hb, b, i == |bs| - 1);
      if isTop {
        Store(above, 2, NULL, bs[i].at);
        OrTop(above, bs[i], true);
      } else {
        var next := FindNextFree(above, bs, i);
        Store(above, 2, next, bs[i].at);
      }
    }

    /** Splits a block that is too large: its upper part becomes a free block of its own, linked both ways. */
    method SplitAbove(hb: int, below: int, n: int, ghost bs: seq<Block>, ghost i: nat, ghost need: int,
            ghost bs': seq<Block>)
      requires words.Length == MEM_WORDS
      requires Tiled(bs) && Headed(words[..], bs)
      requires i < |bs| && hb == Addr(bs[i].at)
      requires below == if i == 0 then HEAP_BASE - 8 else Addr(bs[i - 1].at)
      requires n == 4 * need && 1 <= need <= bs[i].len - 3
      requires Split(bs, i, need, bs') && Tiled(bs') && TopFree(bs')
      modifies words, this`scanSkipped
      ensures UpperWritten(old(words[..]), words[..], bs, i, need, bs')
      ensures LinkedTo(words[..], bs', i + 1, Hop(bs', i + 1, counter))
      ensures counter > 15 || i == |bs| - 1 ==> scanSkipped == old(scanSkipped)
    {
      ghost var m := words[..];
      InBounds(bs, i);
      LinkBelow(bs, i, i + 1);
      assert CtrlAt(m, bs, i);
      WriteAbove(hb, n, bs[i], i == |bs| - 1, bs'[i + 1]);
      PrefixHeaders(m, words[..], bs, i, End(bs[i]), bs');
      SuffixHeaders(m, words[..], bs, i, i + 1, bs[i].at, LinkIndex(bs, i), bs', i + 2);
      assert CtrlAt(words[..], bs', i + 1) && PrevAt(words[..], bs', i + 1);
      LinkAbove(hb, below, hb + n + 8, bs[i], bs', i + 1);
    }

    /** Writes the header of a reserved block of n bytes over block i. */
    method WriteReserved(hb: int, below: int, n: Word, ghost bs: seq<Block>, ghost i: nat)
      requires words.Length == MEM_WORDS && Tiled(bs)
      requires i < |bs| && hb == Addr(bs[i].at) && PrevAt(words[..], bs, i)
      requires below == if i == 0 then HEAP_BASE - 8 else Addr(bs[i - 1].at)
      requires Ctrls(words[..], bs, 0, i)
      modifies words
      ensures Stored(old(words[..]), words[..], bs[i].at, n)
    {
      ghost var m := words[..];
      InBounds(bs, i);
      Store(hb, 0, n, bs[i].at);
      if hb != HEAP_BASE {
        InBounds(bs, i - 1);
        assert Joins(bs, i - 1) && CtrlAt(m, bs, i - 1);
        var prevSize := BlockSize(below, bs[i - 1], false);
        Store(hb, 1, prevSize, bs[i].at);
      }
    }

    /** Marks the chosen block reserved, and finds the free block before it. */
    method MarkReserved(hb: int, below: int, n: int, rest: int, ghost bs: seq<Block>, ghost i: nat) returns (prev: int)
      requires words.Length == MEM_WORDS && Tiled(bs)
      requires i < |bs| && hb == Addr(bs[i].at) && CtrlAt(words[..], bs, i)
      requires below == if i == 0 then HEAP_BASE - 8 else Addr(bs[i - 1].at)
      requires Ctrls(words[..], bs, 0, i) && Prevs(words[..], bs, 0, i + 1)
      requires 4 <= n && n % 4 == 0 && rest == 4 * bs[i].len - n >= 0
      modifies words, this`topBlockFlag
      ensures Stored(old(words[..]), words[..], bs[i].at, ReservedWord(n, rest, topBlockFlag))
      ensures topBlockFlag == FlagAfter(i == |bs| - 1, rest, old(topBlockFlag))
      ensures prev == PtrOrNull(bs, PrevFree(bs, i))
      ensures PrevFree(bs, i) >= 0 ==> InHeap(bs[PrevFree(bs, i)])
    {
      ghost var m := words[..];
      InBounds(bs, i);
      var isTop := BlockIsTop(hb, bs[i], i == |bs| - 1);
      var size := BlockSize(hb, bs[i], i == |bs| - 1);
      if isTop && n >= size {
        topBlockFlag := 2;
      }
      assert PrevAt(m, bs, i);
      WriteReserved(hb, below, n, bs, i);
      LinkBelow(bs, i, i + 1);
      PrefixHeaders(m, words[..], bs, i, End(bs[i]), bs);
      assert PrevAt(words[..], bs, i);
      prev := FindPrevFree(hb, bs, i, Block(bs[i].at, n / 4, false), false);
      AddSpare(hb, n, rest, bs[i].at);
    }

    /** Less than 12 spare bytes stay with the block, and so does the top mark, if the code has noted it. */
    method AddSpare(hb: int, n: int, rest: int, ghost at: int)
      requires words.Length == MEM_WORDS && hb == Addr(at) && 0 <= at < MEM_WORDS && W(words[..], at) == n
      requires 0 <= rest && n + rest + TOP_BLOCK < 0x1_0000_0000
      modifies words
      ensures Stored(old(words[..]), words[..], at, ReservedWord(n, rest, topBlockFlag))
    {
      if rest < 12 {
        var ctrl := Load(hb, 0, at);
        Store(hb, 0, ctrl + rest, at);
        if topBlockFlag == 2 {
          ctrl := Load(hb, 0, at);
          Store(hb, 0, ctrl + TOP_BLOCK, at);
        }
      }
    }

    /** The free block before the taken one now skips it, or points to its upper part. */
    method RelinkBelow(prev: int, ghost bs: seq<Block>, ghost i: nat)
      requires words.Length == MEM_WORDS && Tiled(bs) && i <= |bs|
      requires prev == PtrOrNull(bs, PrevFree(bs, i))
      requires Ctrls(words[..], bs, 0, |bs|)
      requires PrevFree(bs, i) >= 0 ==> TopFree(bs)
      modifies words, this`scanSkipped
      ensures forall x :: x != LinkIndex(bs, i) ==> W(words[..], x) == W(old(words[..]), x)
      ensures var p := PrevFree(bs, i); p >= 0 ==> LinkedTo(words[..], bs, p, Hop(bs, p, counter))
      ensures counter > 15 || PrevFree(bs, i) == -1 ==> scanSkipped == old(scanSkipped)
    {
      if PrevFree(bs, i) >= 0 { InBounds(bs, PrevFree(bs, i)); }
      if prev != NULL {
        var next := FindNextFree(prev, bs, PrevFree(bs, i));
        Store(prev, 2, next, bs[PrevFree(bs, i)].at);
      }
    }

    /** Splits block i if 12 bytes or more are left over. */
    method SplitIfLarge(hb: int, below: int, n: int, ghost bs: seq<Block>, ghost i: nat, ghost need: int,
            ghost bs': seq<Block>) returns (rest: int)
      requires words.Length == MEM_WORDS
      requires Tiled(bs) && Headed(words[..], bs)
      requires i < |bs| && hb == Addr(bs[i].at) && n == 4 * need && 1 <= need <= bs[i].len
      requires below == if i == 0 then HEAP_BASE - 8 else Addr(bs[i - 1].at)
      requires bs[i].len - need >= 3 ==> Split(bs, i, need, bs') && TopFree(bs') && Tiled(bs')
      modifies words, this`scanSkipped
      ensures rest == 4 * bs[i].len - n
      ensures rest < 12 ==> words[..] == old(words[..])
      ensures rest >= 12 ==>
        && UpperWritten(old(words[..]), words[..], bs, i, need, bs')
        && LinkedTo(words[..], bs', i + 1, Hop(bs', i + 1, counter))
      ensures CtrlAt(words[..], bs, i) && Ctrls(words[..], bs, 0, i) && Prevs(words[..], bs, 0, i + 1)
      ensures counter > 15 || i == |bs| - 1 ==> scanSkipped == old(scanSkipped)
    {
      ghost var m := words[..];
      InBounds(bs, i);
      LinkBelow(bs, i, i + 1);
      assert CtrlAt(m, bs, i) && PrevAt(m, bs, i);
      var size := BlockSize(hb, bs[i], i == |bs| - 1);
      rest := size - n;
      if n < size && rest >= 12 {
        SplitAbove(hb, below, n, bs, i, need, bs');
      }
      PrefixHeaders(m, words[..], bs, i, End(bs[i]), bs);
      assert PrevAt(words[..], bs, i);
    }

    /** Splits block i if it is too large, and marks what is handed out as reserved. The control word it leaves is given
        also for requests that lose the top mark. */
    method Carve(hb: int, n: int, ghost bs: seq<Block>, ghost i: nat, ghost need: int,
            ghost bs': seq<Block>) returns (prev: int)
      requires words.Length == MEM_WORDS
      requires Tiled(bs) && Headed(words[..], bs)
      requires i < |bs| && hb == Addr(bs[i].at) && n == 4 * need && 1 <= need <= bs[i].len
      requires if bs[i].len - need < 3 then Whole(bs, i, bs') else Split(bs, i, need, bs') && TopFree(bs')
      requires Tiled(bs')
      modifies words, this`topBlockFlag, this`scanSkipped
      ensures Carved(old(words[..]), words[..], bs, i, bs', if bs[i].len - need >= 3 then i + 2 else i + 1)
      ensures topBlockFlag == FlagAfter(i == |bs| - 1, 4 * bs[i].len - n, old(topBlockFlag))
      ensures W(words[..], bs[i].at) == ReservedWord(n, 4 * bs[i].len - n, topBlockFlag)
      ensures bs[i].len - need >= 3 ==> LinkedTo(words[..], bs', i + 1, Hop(bs', i + 1, counter))
      ensures bs[i].len - need >= 3 ==> W(words[..], End(bs[i]) + 1) == 4 * (bs[i].len - need - 2)
      ensures bs[i].len - need < 3 ==> forall x :: x != bs[i].at ==> W(words[..], x) == W(old(words[..]), x)
      ensures prev == PtrOrNull(bs, PrevFree(bs, i))
      ensures counter > 15 || i == |bs| - 1 ==> scanSkipped == old(scanSkipped)
    {
      ghost var m := words[..];
      InBounds(bs, i);
      LinkBelow(bs, i, i + 1);
      assert CtrlAt(m, bs, i) && PrevAt(m, bs, i);
      var prevSize := Load(hb, 1, bs[i].at);
      var below := hb - prevSize - 8;
      if i > 0 { assert Joins(bs, i - 1); }
      var rest := SplitIfLarge(hb, below, n, bs, i, need, bs');
      ghost var m1 := words[..];
      prev := MarkReserved(hb, below, n, rest, bs, i);
      if rest >= 12 {
        CarvedSplit(m, m1, words[..], bs, i, need, bs');
      } else {
        CarvedWhole(m, words[..], bs, i, bs', ReservedWord(n, rest, topBlockFlag));
      }
    }

    /** Hands out block i, the one the search stopped at. */
    method TakeBlock(hb: int, n: int, ghost bs: seq<Block>, ghost i: nat, ghost need: int)
      requires words.Length == MEM_WORDS
      requires WellFormed(bs) && Headed(words[..], bs)
      requires i < |bs| && hb == Addr(bs[i].at) && n == 4 * need && 1 <= need <= bs[i].len
      requires ServedAt(bs, i, need, topBlockFlag) && (i < |bs| - 1 ==> topBlockFlag == 1)
      modifies words, this`topBlockFlag, this`firstFree, this`counter, this`scanSkipped
      ensures WellFormed(Take(bs, i, need)) && Headed(words[..], Take(bs, i, need))
      ensures firstFree == PtrAt(Take(bs, i, need), FirstIndex(Take(bs, i, need)))
      ensures topBlockFlag == FlagAfter(i == |bs| - 1, 4 * bs[i].len - n, old(topBlockFlag))
      ensures counter == old(counter) + 1
      ensures TakenAs(old(words[..]), words[..], bs, i, Take(bs, i, need), old(counter))
      ensures old(counter) > 15 || (i == |bs| - 1 && PrevFree(bs, i) == -1) ==> scanSkipped == old(scanSkipped)
    {
      TakeWellFormed(bs, i, need, topBlockFlag);
      CarveAndRelink(hb, n, bs, i, need);
      UpdateFirstFreeBlock(Take(bs, i, need));
      counter := counter + 1;
    }

    /** Block i becomes reserved, as far as it is handed out, and the links are repaired. */
    method CarveAndRelink(hb: int, n: int, ghost bs: seq<Block>, ghost i: nat, ghost need: int)
      requires words.Length == MEM_WORDS
      requires WellFormed(bs) && Headed(words[..], bs)
      requires i < |bs| && hb == Addr(bs[i].at) && n == 4 * need && 1 <= need <= bs[i].len
      requires ServedAt(bs, i, need, topBlockFlag) && (i < |bs| - 1 ==> topBlockFlag == 1)
      modifies words, this`topBlockFlag, this`scanSkipped
      ensures Headed(words[..], Take(bs, i, need))
      ensures topBlockFlag == FlagAfter(i == |bs| - 1, 4 * bs[i].len - n, old(topBlockFlag))
      ensures TakenAs(old(words[..]), words[..], bs, i, Take(bs, i, need), counter)
      ensures counter > 15 || (i == |bs| - 1 && PrevFree(bs, i) == -1) ==> scanSkipped == old(scanSkipped)
    {
      ghost var m, flag := words[..], topBlockFlag;
      ghost var bs', j' := Take(bs, i, need), if bs[i].len - need >= 3 then i + 2 else i + 1;
      TakeWellFormed(bs, i, need, flag);
      TakeShape(bs, i, need);
      var prev := Carve(hb, n, bs, i, need, bs');
      ghost var m1 := words[..];
      ReservedCtrl(m1, bs, i, need, flag);
      RelinkBelow(prev, bs', i);
      LinkBelow(bs, i, i + 1);
      CarvedHeaded(m, m1, words[..], bs, i, bs', j');
      TakenSoFar(m, words[..], bs, i, need, counter);
    }

    /** Follows the links to the first block with room for n bytes, or to the top block. */
    method Search(n: int, ghost need: int) returns (hb: int)
      requires words.Length == MEM_WORDS && WellFormed(blocks) && Headed(words[..], blocks)
      requires firstFree == PtrAt(blocks, FirstIndex(blocks))
      requires n == 4 * need && Walk(words[..], blocks, need, FirstIndex(blocks)) < |blocks|
      ensures var i := Walk(words[..], blocks, need, FirstIndex(blocks));
        hb == if blocks[i].len >= need then Addr(blocks[i].at) else NULL
    {
      ghost var bs, k := blocks, FirstIndex(blocks);
      hb := firstFree;
      InBounds(bs, k);
      assert CtrlAt(words[..], bs, k);
      var size := BlockSize(hb, bs[k], k == |bs| - 1);
      while n > size
        invariant k < |bs| && hb == Addr(bs[k].at) && InHeap(bs[k])
        invariant CtrlAt(words[..], bs, k) && size == 4 * bs[k].len
        invariant Walk(words[..], bs, need, k) == Walk(words[..], bs, need, FirstIndex(bs)) < |bs|
        decreases |bs| - k
      {
        var isTop := BlockIsTop(hb, bs[k], k == |bs| - 1);
        if isTop {
          return NULL;
        }
        hb := Load(hb, 2, bs[k].at);
        k := BlockAt(bs, hb, k + 1);
        InBounds(bs, k);
        assert CtrlAt(words[..], bs, k);
        size := BlockSize(hb, bs[k], k == |bs| - 1);
      }
    }

    /** The first allocation lays out the heap: the block it returns, and the rest as the free top block. Nothing
        checks that there is a rest. */
    method InitHeap(n: Word, ghost need: int)
      requires words.Length == MEM_WORDS
      requires n == 4 * need && 1 <= need < MB_HEXA / 4
      modifies words, this`firstFree, this`heapInitialized
      ensures heapInitialized == 2
      ensures var bs := Take(FreshBlocks(), 0, need);
        Encodes(words[..], bs) <==> n + 12 <= MB_HEXA
      ensures var bs := Take(FreshBlocks(), 0, need);
        n + 12 <= MB_HEXA ==>
          && WellFormed(bs) && firstFree == PtrAt(bs, FirstIndex(bs))
          && W(words[..], HEAP_END) == W(old(words[..]), HEAP_END) && W(words[..], SLACK) == W(old(words[..]), SLACK)
    {
      Store(HEAP_BASE, 0, n, 0);
      Store(HEAP_BASE, 1, 0, 0);
      var top := HEAP_BASE + n + 8;
      Store(top, 0, InitTopSize(n) + FREE_BLOCK + TOP_BLOCK, need + 2);
      Store(top, 1, n, need + 2);
      Store(top, 2, NULL, need + 2);
      firstFree := top;
      heapInitialized := 2;
      InitEncodes(words[..], need);
    }

    /** The allocation once the heap is laid out: search, then take. */
    method AllocateBlock(n: int, ghost need: int) returns (p: int)
      requires Valid() && heapInitialized != 1
      requires n == 4 * need && 1 <= need && Allocatable(words[..], blocks, topBlockFlag, need)
      modifies this, words
      ensures Valid() && heapInitialized == old(heapInitialized)
      ensures var i := old(Walk(words[..], blocks, need, FirstIndex(blocks)));
        && Answered(old(blocks), i, need, p, blocks)
        && topBlockFlag == FlagAnswered(old(blocks), i, need, old(topBlockFlag))
      ensures p != NULL ==> freed == {} && counter == old(counter) + 1
      ensures var i := old(Walk(words[..], blocks, need, FirstIndex(blocks)));
        p != NULL ==> i < |old(blocks)| && TakenAs(old(words[..]), words[..], old(blocks), i, blocks, old(counter))
      ensures p == NULL ==> words[..] == old(words[..]) && freed == old(freed) && blocks == old(blocks)
      ensures p == NULL ==> counter == old(counter) && firstFree == old(firstFree)
      ensures old(counter) > 15 || OnlyTop(old(blocks)) ==> scanSkipped == old(scanSkipped)
    {
      ghost var i, bs, m := Walk(words[..], blocks, need, FirstIndex(blocks)), blocks, words[..];
      InBounds(bs, i);
      var hb := Search(n, need);
      if hb == NULL {
        return NULL;
      }
      FirstBelowTop(bs);
      TakeWellFormed(bs, i, need, topBlockFlag);
      TakenFlag(bs, i, need, topBlockFlag);
      TakeBlock(hb, n, bs, i, need);
      blocks, freed := Take(bs, i, need), {};
      return hb;
    }

    /** Hands out the first block on the chain of links that has room for nbytes, rounded up to words, or NULL if none
        has. If the links are right, or only the top block is free, this is the lowest free block that fits. */
    method Malloc(nbytes: int) returns (p: int)
      requires Valid() && Admits(nbytes)
      modifies this, words
      ensures Valid()
      ensures p != NULL ==>
        exists b :: b in Live(blocks) && Addr(b.at) == p && nbytes <= 4 * b.len <= nbytes + 11
      ensures p == NULL && (old(AllLinked()) || OnlyTop(old(blocks))) && TopFree(old(blocks)) ==>
        forall b :: b in old(blocks) && b.free ==> 4 * b.len < nbytes
      ensures var i := old(Walk(words[..], blocks, Need(nbytes), FirstIndex(blocks)));
        && Answered(old(blocks), i, Need(nbytes), p, blocks)
        && topBlockFlag == FlagAnswered(old(blocks), i, Need(nbytes), old(topBlockFlag))
        && (p != NULL && old(heapInitialized) != 1 ==>
          TakenAs(old(words[..]), words[..], old(blocks), i, blocks, old(counter)))
      ensures old(heapInitialized) == 1 ==> FirstTaken(old(words[..]), words[..], blocks)
      ensures old(AllLinked()) || OnlyTop(old(blocks)) ==> Allocated(old(blocks), Need(nbytes), p, blocks)
      ensures p != NULL ==> freed == {} && heapInitialized != 1
      ensures p != NULL ==> counter == old(counter) + (if old(heapInitialized) == 1 then 0 else 1)
      ensures p == NULL ==> words[..] == old(words[..]) && freed == old(freed) && counter == old(counter)
      ensures p == NULL ==>
        firstFree == old(firstFree) && heapInitialized == old(heapInitialized) && blocks == old(blocks)
      ensures old(AllLinked()) && (old(counter) > 15 || p == NULL) ==> AllLinked()
      ensures p != NULL && OnlyTop(old(blocks)) ==> AllLinked()
      ensures old(counter) > 15 || OnlyTop(old(blocks)) ==> scanSkipped == old(scanSkipped)
    {
      if noFreeSpace == 2 {
        return NULL;
      }
      var n := RoundUp(nbytes);
      NeedBytes(nbytes);
      if heapInitialized == 1 {
        TakenGrants(blocks, 0, nbytes);
        InitHeap(n, Need(nbytes));
        blocks, freed := Take(FreshBlocks(), 0, Need(nbytes)), {};
        return HEAP_BASE;
      }
      FirstBelowTop(blocks);
      if AllLinked() || OnlyTop(blocks) { WalkPicks(words[..], blocks, topBlockFlag, Need(nbytes)); }
      ghost var bs, i := blocks, Walk(words[..], blocks, Need(nbytes), FirstIndex(blocks));
      p := AllocateBlock(n, Need(nbytes));
      AnswerBytes(bs, i, nbytes, p, blocks);
    }

    // ----- free -----

    /** The joined block takes over the link of the block above it, whose header no longer marks the top. */
    method LinkJoined(ptr: int, next: int, ghost bs: seq<Block>, ghost i: nat)
      requires words.Length == MEM_WORDS && Tiled(bs) && TopFree(bs)
      requires i + 1 < |bs| && ptr == Addr(bs[i].at) && next == Addr(bs[i + 1].at)
      requires Ctrls(words[..], bs, i + 1, |bs|)
      modifies words, this`scanSkipped
      ensures Describes(words[..], bs[i + 1], false)
      ensures forall x :: x != bs[i].at + 2 && x != bs[i + 1].at ==> W(words[..], x) == W(old(words[..]), x)
      ensures counter > 15 ==> scanSkipped == old(scanSkipped)
    {
      InBounds(bs, i);
      InBounds(bs, i + 1);
      Ordered(bs, i, i + 1);
      assert CtrlAt(words[..], bs, i + 1);
      var isTop := BlockIsTop(next, bs[i + 1], i + 1 == |bs| - 1);
      if isTop {
        ClearTop(next, bs[i + 1], true);
        Store(ptr, 2, NULL, bs[i].at);
      } else {
        var nextFree := FindNextFree(next, bs, i + 1);
        Store(ptr, 2, nextFree, bs[i].at);
      }
    }

    /** Joins the freed block i with the block above it, if that is free. The block links to itself meanwhile. Above
        the top block the code looks at the word behind the heap. */
    method CheckMergeWithTop(ptr: int, ghost bs: seq<Block>, ghost i: nat)
      requires words.Length == MEM_WORDS && Tiled(bs) && TopFree(bs)
      requires i < |bs| && bs[i].free && ptr == Addr(bs[i].at) && Headed(words[..], bs)
      requires i == |bs| - 1 ==> !FreeBit(words[..], HEAP_END)
      modifies words, this`firstFree, this`scanSkipped
      ensures MergedUp(old(words[..]), words[..], bs, i)
      ensures counter > 15 ==> scanSkipped == old(scanSkipped)
    {
      ghost var m, b := words[..], bs[i];
      InBounds(bs, i);
      assert CtrlAt(m, bs, i);
      var size := BlockSize(ptr, b, i == |bs| - 1);
      var next := ptr + size + 8;
      ghost var top := HasTop(W(m, End(b)));
      ghost var c := NextHeader(m, bs, i, top);
      var nextSize := BlockSize(next, c, top);
      var nextNext := next + nextSize + 8;
      var isFree := BlockIsFree(next, c, top);
      if !isFree {
        NotMerged(m, bs, i);
        return;
      }
      AbsorbUpper(ptr, next, nextNext, nextSize, bs, i);
    }

    /** Adds the free block i + 1 to the freed block i. */
    method AbsorbUpper(ptr: int, next: int, nextNext: int, nextSize: Word, ghost bs: seq<Block>, ghost i: nat)
      requires words.Length == MEM_WORDS && Tiled(bs) && TopFree(bs) && Headed(words[..], bs)
      requires i + 1 < |bs| && bs[i].free && bs[i + 1].free && ptr == Addr(bs[i].at) && next == Addr(bs[i + 1].at)
      requires nextNext == Addr(End(bs[i + 1])) && nextSize == 4 * bs[i + 1].len
      modifies words, this`firstFree, this`scanSkipped
      ensures MergedUp(old(words[..]), words[..], bs, i)
      ensures counter > 15 ==> scanSkipped == old(scanSkipped)
    {
      ghost var m, b, c, top := words[..], bs[i], bs[i + 1], i + 1 == |bs| - 1;
      ghost var joined := Block(b.at, b.len + 2 + c.len, true);
      InBounds(bs, i);
      InBounds(bs, i + 1);
      JoinTiled(bs, i);
      assert CtrlAt(m, bs, i) && CtrlAt(m, bs, i + 1);
      JoinUpper(ptr, next, nextNext, nextSize, bs, i);
      assert CtrlAt(words[..], JoinNext(bs, i), i);
      ghost var m1 := words[..];
      var p := FindPrevFree(ptr, JoinNext(bs, i), i, joined, top);
      Store(p, 2, ptr, b.at);
      PayloadStore(m1, words[..], JoinNext(bs, i), i);
    }

    /** The header of block i, and the prev_size after block i + 1, become those of the joined block. */
    method JoinUpper(ptr: int, next: int, nextNext: int, nextSize: Word, ghost bs: seq<Block>, ghost i: nat)
      requires words.Length == MEM_WORDS && Tiled(bs) && TopFree(bs) && Headed(words[..], bs)
      requires i + 1 < |bs| && bs[i].free && bs[i + 1].free && ptr == Addr(bs[i].at) && next == Addr(bs[i + 1].at)
      requires nextNext == Addr(End(bs[i + 1])) && nextSize == 4 * bs[i + 1].len
      modifies words, this`firstFree, this`scanSkipped
      ensures Headed(words[..], JoinNext(bs, i)) && FreeBit(words[..], bs[i + 1].at)
      ensures W(words[..], End(bs[i + 1]) + 1) == 4 * (bs[i].len + 2 + bs[i + 1].len)
      ensures forall x :: x != bs[i].at && x != bs[i].at + 2 && x != bs[i + 1].at && x != End(bs[i + 1]) + 1 ==>
        W(words[..], x) == W(old(words[..]), x)
      ensures counter > 15 ==> scanSkipped == old(scanSkipped)
    {
      ghost var m, b, c, top := words[..], bs[i], bs[i + 1], i + 1 == |bs| - 1;
      ghost var joined := Block(b.at, b.len + 2 + c.len, true);
      InBounds(bs, i);
      InBounds(bs, i + 1);
      assert Joins(bs, i);
      assert CtrlAt(m, bs, i) && CtrlAt(m, bs, i + 1);
      var isTop := BlockIsTop(next, c, top);
      var ctrl := Load(ptr, 0, b.at);
      if isTop {
        firstFree := ptr;
        Store(ptr, 0, ctrl + TOP_BLOCK, b.at);
        ctrl := Load(ptr, 0, b.at);
      }
      Store(ptr, 0, ctrl + nextSize + 8, b.at);
      assert Describes(words[..], joined, top);
      CtrlsFrom(m, words[..], bs, i + 1);
      LinkJoined(ptr, next, bs, i);
      var size := BlockSize(ptr, joined, top);
      Store(nextNext, 1, size, End(c));
      assert CtrlAt(words[..], JoinNext(bs, i), i);
      JoinHeaders(m, words[..], bs, i);
      FreeBitOf(words[..], c, false);
    }

    /** Adds the freed block i to the free block below it. Its old header stays, marked free. */
    method AbsorbIntoLower(ptr: int, pre: int, ghost bs: seq<Block>, ghost i: nat)
      requires words.Length == MEM_WORDS && Tiled(bs)
      requires 0 < i < |bs| && bs[i].free && bs[i - 1].free && ptr == Addr(bs[i].at) && pre == Addr(bs[i - 1].at)
      requires CtrlAt(words[..], bs, i) && CtrlAt(words[..], bs, i - 1)
      modifies words
      ensures CtrlAt(words[..], JoinNext(bs, i - 1), i - 1)
      ensures i < |bs| - 1 ==> W(words[..], End(bs[i]) + 1) == 4 * (bs[i - 1].len + 2 + bs[i].len)
      ensures FreeBit(words[..], bs[i].at)
      ensures i == |bs| - 1 ==> W(words[..], End(bs[i]) + 1) == W(old(words[..]), End(bs[i]) + 1)
      ensures forall x :: x != bs[i - 1].at && x != bs[i].at && x != bs[i].at + 2 && x != End(bs[i]) + 1 ==>
        W(words[..], x) == W(old(words[..]), x)
    {
      ghost var a, b, top := bs[i - 1], bs[i], i == |bs| - 1;
      ghost var joined := Block(a.at, a.len + 2 + b.len, true);
      InBounds(bs, i);
      InBounds(bs, i - 1);
      assert Joins(bs, i - 1);
      var size := BlockSize(ptr, b, top);
      var ctrl := Load(pre, 0, a.at);
      Store(pre, 0, ctrl + size + 8, a.at);
      Store(ptr, 2, NULL, b.at);
      OrFree(ptr, b, top);
      var isTop := BlockIsTop(ptr, b, top);
      if isTop {
        ClearTop(ptr, b, top);
        OrTop(pre, joined, false);
      } else {
        size := BlockSize(ptr, b, top);
        var preSize := BlockSize(pre, joined, false);
        Store(ptr + size + 8, 1, preSize, End(b));
      }
      FreeBitOf(words[..], b, false);
    }

    /** Joins the freed block i with the block below it, if that is free. */
    method CheckMergeWithBottom(ptr: int, ghost bs: seq<Block>, ghost i: nat)
      requires words.Length == MEM_WORDS && Tiled(bs)
      requires i < |bs| && bs[i].free && ptr == Addr(bs[i].at) && Headed(words[..], bs)
      modifies words, this`mergeFlag
      ensures MergedDown(old(words[..]), words[..], bs, i)
      ensures mergeFlag == if i > 0 && bs[i - 1].free then 2 else old(mergeFlag)
    {
      ghost var m := words[..];
      InBounds(bs, i);
      assert CtrlAt(m, bs, i) && PrevAt(m, bs, i);
      FreeBitOf(m, bs[i], i == |bs| - 1);
      var prevSize := Load(ptr, 1, bs[i].at);
      var pre := ptr - prevSize - 8;
      if i > 0 {
        InBounds(bs, i - 1);
        assert CtrlAt(m, bs, i - 1) && Joins(bs, i - 1);
      }
      if pre < HEAP_BASE {
        return;
      }
      var isFree := BlockIsFree(pre, bs[i - 1], false);
      if !isFree {
        return;
      }
      AbsorbIntoLower(ptr, pre, bs, i);
      JoinHeaders(m, words[..], bs, i - 1);
      mergeFlag := 2;
    }

    /** Marks block i free. Only a reserved block over the whole heap is treated apart. */
    method MarkFree(ptr: int, ghost bs: seq<Block>, ghost i: nat) returns (whole: bool)
      requires words.Length == MEM_WORDS && Tiled(bs)
      requires i < |bs| && !bs[i].free && ptr == Addr(bs[i].at) && Headed(words[..], bs)
      modifies words
      ensures Headed(words[..], Marked(bs, i)) && whole == (|bs| == 1)
      ensures forall x :: x != bs[i].at ==> W(words[..], x) == W(old(words[..]), x)
    {
      ghost var m := words[..];
      InBounds(bs, i);
      assert CtrlAt(m, bs, i);
      var ctrl := Load(ptr, 0, bs[i].at);
      Store(ptr, 0, ctrl + FREE_BLOCK, bs[i].at);
      MarkedHeaders(m, words[..], bs, i);
      assert CtrlAt(words[..], Marked(bs, i), i) && PrevAt(words[..], Marked(bs, i), i);
      var isTop := BlockIsTop(ptr, Marked(bs, i)[i], i == |bs| - 1);
      var prevSize := Load(ptr, 1, bs[i].at);
      whole := isTop && prevSize == 0;
    }

    /** The whole heap becomes one free block again. The code adds the size of whatever header lies behind it, so the
        result is right exactly if that has no size. */
    method FreeWhole(ptr: int, ghost bs: seq<Block>)
      requires words.Length == MEM_WORDS && Tiled(bs) && |bs| == 1 && ptr == Addr(bs[0].at)
      requires Headed(words[..], Marked(bs, 0))
      modifies this`firstFree, words
      ensures firstFree == HEAP_BASE && forall x :: x != 0 ==> W(words[..], x) == W(old(words[..]), x)
      ensures Headed(words[..], Marked(bs, 0)) <==> SizeBits(W(words[..], HEAP_END)) == 0
    {
      ghost var m, b := words[..], Marked(bs, 0);
      HeaderDescribes(m, HEAP_END);
      assert CtrlAt(m, b, 0) && PrevAt(m, b, 0);
      var size := BlockSize(ptr, b[0], true);
      firstFree := HEAP_BASE;
      var nextSize := BlockSize(ptr + size + 8, HeaderAt(m, HEAP_END), HasTop(W(m, HEAP_END)));
      var ctrl := Load(ptr, 0, 0);
      var sum := (ctrl as int) + (nextSize as int);
      Store(ptr, 0, sum % 0x1_0000_0000, 0);
      assert CtrlAt(words[..], b, 0) <==> nextSize == 0;
      assert PrevAt(words[..], b, 0);
    }

    /** Joins the block i that was marked free with its free neighbours; m is the memory before. */
    method MergeFreed(ptr: int, ghost m: seq<Word>, ghost bs: seq<Block>, ghost i: nat)
      requires words.Length == MEM_WORDS
      requires WellFormed(bs) && i < |bs| && !bs[i].free && ptr == Addr(bs[i].at)
      requires (TopFree(bs) || i == |bs| - 1) && (i == |bs| - 1 ==> !FreeBit(m, HEAP_END))
      requires Headed(words[..], Marked(bs, i)) && forall x :: x != bs[i].at ==> W(words[..], x) == W(m, x)
      modifies words, this`firstFree, this`mergeFlag, this`scanSkipped
      ensures Merged(m, words[..], bs, i, Low(bs, i), High(bs, i), Release(bs, i))
      ensures SlackFreed(m, words[..], bs, i)
      ensures mergeFlag == if i > 0 && bs[i - 1].free then 2 else old(mergeFlag)
      ensures counter > 15 ==> scanSkipped == old(scanSkipped)
    {
      ghost var b1, b2 := Marked(bs, i), JoinedUp(Marked(bs, i), i);
      ReleaseSteps(bs, i);
      InBounds(bs, i);
      ghost var m1 := words[..];
      ghost var m2 := JoinNeighbours(ptr, b1, b2, i);
      MergeSteps(m, m1, m2, words[..], bs, i, b1, b2);
      SlackSteps(m, m1, m2, words[..], bs, i, b1, b2);
    }

    /** Joins the free block i with the block above it and then with the one below; m2 is the memory in between. */
    method JoinNeighbours(ptr: int, ghost b1: seq<Block>, ghost b2: seq<Block>, ghost i: nat)
        returns (ghost m2: seq<Word>)
      requires words.Length == MEM_WORDS && Tiled(b1) && TopFree(b1) && Tiled(b2)
      requires i < |b1| && b1[i].free && ptr == Addr(b1[i].at) && Headed(words[..], b1)
      requires i == |b1| - 1 ==> !FreeBit(words[..], HEAP_END)
      requires b2 == JoinedUp(b1, i) && i < |b2| && b2[i].free && b2[i].at == b1[i].at
      modifies words, this`firstFree, this`mergeFlag, this`scanSkipped
      ensures MergedUp(old(words[..]), m2, b1, i) && MergedDown(m2, words[..], b2, i)
      ensures mergeFlag == if i > 0 && b2[i - 1].free then 2 else old(mergeFlag)
      ensures counter > 15 ==> scanSkipped == old(scanSkipped)
    {
      CheckMergeWithTop(ptr, b1, i);
      m2 := words[..];
      assert Headed(m2, b2);
      CheckMergeWithBottom(ptr, b2, i);
    }

    /** The freed block, joined or not, links to where `find_next_free` says; a joined one is still linked under its old
        address. */
    method RelinkSelf(ptr: int, pre: int, ghost bs: seq<Block>, ghost i: nat, ghost lo: nat, ghost at: int)
      requires words.Length == MEM_WORDS && Tiled(bs) && TopFree(bs) && Headed(words[..], bs)
      requires lo < |bs| && lo <= i <= lo + 1 && mergeFlag == if lo < i then 2 else 1
      requires ptr == Addr(at) && bs[lo].at <= at && at + 2 < End(bs[lo]) && (lo == i ==> at == bs[lo].at)
      requires lo < i ==> pre == Addr(bs[lo].at)
      modifies words, this`scanSkipped
      ensures Stored(old(words[..]), words[..], at + 2, PtrAt(bs, Hop(bs, lo, counter)))
      ensures Headed(words[..], bs)
      ensures counter > 15 ==> scanSkipped == old(scanSkipped)
    {
      ghost var m := words[..];
      InBounds(bs, lo);
      var joined := if mergeFlag == 2 then pre else ptr;
      var next := FindNextFree(joined, bs, lo);
      Store(ptr, 2, next, at);
      PayloadStore(m, words[..], bs, lo);
    }

    /** Repairs the two links that freeing block i changes; bs is the sequence after the joins. */
    method RelinkFreed(ptr: int, pre: int, ghost bs: seq<Block>, ghost i: nat, ghost lo: nat, ghost at: int)
      requires words.Length == MEM_WORDS && Tiled(bs) && TopFree(bs) && Headed(words[..], bs)
      requires lo < |bs| && bs[lo].free && lo <= i <= lo + 1 && mergeFlag == if lo < i then 2 else 1
      requires ptr == Addr(at) && bs[lo].at <= at && at + 2 < End(bs[lo]) && (lo == i ==> at == bs[lo].at)
      requires pre == if i == 0 then HEAP_BASE - 8 else Addr(bs[i - 1].at)
      modifies words, this`scanSkipped
      ensures forall x :: x != at + 2 && x != LinkIndex(bs, i) ==> W(words[..], x) == W(old(words[..]), x)
      ensures Headed(words[..], bs)
      ensures LinkedTo(words[..], bs, lo, Hop(bs, lo, counter))
      ensures var p := PrevFree(bs, i); p >= 0 ==> LinkedTo(words[..], bs, p, Hop(bs, p, counter))
      ensures counter > 15 ==> scanSkipped == old(scanSkipped)
    {
      ghost var p := PrevFree(bs, i);
      RelinkSelf(ptr, pre, bs, i, lo, at);
      ghost var m := words[..];
      if i > 0 {
        InBounds(bs, i - 1);
        assert CtrlAt(words[..], bs, i - 1);
      }
      if p >= 0 { InBounds(bs, p); }
      if 0 <= p < lo { Ordered(bs, p, lo); }
      var prev := FindPrevFree(pre, bs, i - 1, bs[if i > 0 then i - 1 else 0], i == |bs|);
      RelinkBelow(prev, bs, i);
      PayloadStore(m, words[..], bs, if p >= 0 then p else lo);
    }

    /** Frees the live block i. */
    method FreeBlock(ptr: int, ghost bs: seq<Block>, ghost i: nat)
      requires words.Length == MEM_WORDS && mergeFlag == 1 && noFreeSpace == 1
      requires WellFormed(bs) && Headed(words[..], bs) && Freeable(words[..], bs, i, ptr)
      modifies words, this`firstFree, this`mergeFlag, this`topBlockFlag, this`noFreeSpace, this`scanSkipped
      ensures Headed(words[..], Release(bs, i))
      ensures firstFree == PtrAt(Release(bs, i), FirstIndex(Release(bs, i)))
      ensures mergeFlag == 1 && noFreeSpace == 1 && topBlockFlag == if |bs| == 1 then old(topBlockFlag) else 1
      ensures FreedAs(old(words[..]), words[..], bs, i, counter)
      ensures counter > 15 ==> scanSkipped == old(scanSkipped)
    {
      ghost var m := words[..];
      ReleaseWellFormed(bs, i);
      InBounds(bs, i);
      assert PrevAt(m, bs, i);
      if i > 0 { assert Joins(bs, i - 1); }
      var prevSize := Load(ptr, 1, bs[i].at);
      var pre := ptr - prevSize - 8;
      var whole := MarkFree(ptr, bs, i);
      if whole {
        assert W(words[..], HEAP_END) == W(m, HEAP_END);
        FreeWhole(ptr, bs);
        FreedWhole(m, words[..], bs, counter);
        return;
      }
      JoinAndRelink(ptr, pre, m, bs, i);
      UpdateFirstFreeBlock(Release(bs, i));
      topBlockFlag := 1;
      noFreeSpace := 1;
      mergeFlag := 1;
    }

    /** Joins the block i that was marked free, and repairs the links. */
    method JoinAndRelink(ptr: int, pre: int, ghost m: seq<Word>, ghost bs: seq<Block>, ghost i: nat)
      requires words.Length == MEM_WORDS && mergeFlag == 1
      requires WellFormed(bs) && |bs| > 1 && Headed(m, bs) && Freeable(m, bs, i, ptr)
      requires Headed(words[..], Marked(bs, i)) && forall x :: x != bs[i].at ==> W(words[..], x) == W(m, x)
      requires pre == if i == 0 then HEAP_BASE - 8 else Addr(bs[i - 1].at)
      modifies words, this`firstFree, this`mergeFlag, this`scanSkipped
      ensures Headed(words[..], Release(bs, i))
      ensures FreedAs(m, words[..], bs, i, counter)
      ensures counter > 15 ==> scanSkipped == old(scanSkipped)
    {
      ghost var lo, hi, bs' := Low(bs, i), High(bs, i), Release(bs, i);
      ReleaseWellFormed(bs, i);
      ReleaseJoins(bs, i);
      MergeFreed(ptr, m, bs, i);
      ghost var m1 := words[..];
      FreedPlace(bs, i, lo, hi, bs');
      RelinkFreed(ptr, pre, bs', i, lo, bs[i].at);
      FreedSoFar(m, m1, words[..], bs, i, lo, hi, bs', counter);
    }

    /** Frees the live block i that ptr points to. */
    method FreeHeld(ptr: int) returns (ghost i: nat)
      requires Valid() && heapInitialized != 1 && exists k: nat :: Freeable(words[..], blocks, k, ptr)
      modifies this, words
      ensures Valid() && heapInitialized == old(heapInitialized) && counter == old(counter)
      ensures Freeable(old(words[..]), old(blocks), i, ptr)
      ensures blocks == Release(old(blocks), i) && TopFree(blocks) && freed == old(freed) + {ptr}
      ensures topBlockFlag == if |old(blocks)| == 1 then old(topBlockFlag) else 1
      ensures FreedAs(old(words[..]), words[..], old(blocks), i, counter)
      ensures TestsFree(words[..], blocks, ptr)
      ensures W(words[..], HEAP_END) == W(old(words[..]), HEAP_END)
      ensures counter > 15 ==> scanSkipped == old(scanSkipped)
    {
      ghost var bs := blocks;
      i :| Freeable(words[..], bs, i, ptr);
      ReleaseWellFormed(bs, i);
      FreeBlock(ptr, bs, i);
      blocks := Release(bs, i);
      freed := freed + {ptr};
    }

    /** Frees the block at ptr, joining it with its free neighbours. NULL, and a pointer that tests free, change
        nothing. */
    method Free(ptr: int)
      requires Valid()
      requires ptr == NULL || (heapInitialized != 1 &&
        (TestsFree(words[..], blocks, ptr) || exists i: nat :: Freeable(words[..], blocks, i, ptr)))
      modifies this, words
      ensures Valid()
      ensures heapInitialized == old(heapInitialized) && counter == old(counter)
      ensures ptr == NULL || old(TestsFree(words[..], blocks, ptr)) ==>
        && words[..] == old(words[..]) && blocks == old(blocks)
        && freed == old(freed) + (if ptr == NULL then {} else {ptr})
        && firstFree == old(firstFree) && topBlockFlag == old(topBlockFlag)
      ensures forall i: nat :: Freeable(old(words[..]), old(blocks), i, ptr) ==>
        && blocks == Release(old(blocks), i) && TopFree(blocks)
        && topBlockFlag == (if |old(blocks)| == 1 then old(topBlockFlag) else 1)
        && freed == old(freed) + {ptr}
        && FreedAs(old(words[..]), words[..], old(blocks), i, counter)
        && SlackFreed(old(words[..]), words[..], old(blocks), i)
      ensures ptr != NULL ==> TestsFree(words[..], blocks, ptr)
      ensures W(words[..], HEAP_END) == W(old(words[..]), HEAP_END)
      ensures counter > 15 ==> scanSkipped == old(scanSkipped)
    {
      ghost var m, bs := words[..], blocks;
      if ptr == NULL {
        NullNotLive(m, bs);
        return;
      }
      FreeBitDecides(m, bs, ptr);
      var ctrl := Load(ptr, 0, (ptr - HEAP_BASE) / 4);
      if HasFree(ctrl) {
        freed := freed + {ptr};
        return;
      }
      ghost var i := FreeHeld(ptr);
      forall j: nat | Freeable(m, bs, j, ptr)
        ensures j == i
      {
        FreeableOne(m, bs, i, j, ptr);
      }
    }
  }
}
