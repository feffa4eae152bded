/** Where the heap of the running process lies in physical memory: the last words that the allocator uses are behind its
    section, in the data of process 0. */
module Overlap {
  import opened HeapBlocks
  import opened HeapWords
  import opened PageTable
  import opened ProcessView
  import opened Kernel

  // The heap's words that its section holds; the allocator uses MEM_WORDS.
  const SECTION_WORDS := 0x4_0000

  /** The address of the word that holds the size of the top block is in section 8. */
  lemma SlackAddress()
    ensures Addr(SLACK) == Base(8) + 12 && Addr(HEAP_END) == Base(8) + 8 && Addr(SECTION_WORDS) == Base(8)
  {
  }

  /** Byte b of the heap's word x: the running process's own heap section, but for the last words, which are the same
      bytes of section 8 for every process. */
  lemma HeapReach(k: Kernel, x: int, b: int)
    requires k.Valid() && Attached(k.view) && 0 <= x < MEM_WORDS && 0 <= b < 4
    ensures k.Translate(Addr(x) + b) ==
      if x < SECTION_WORDS then Base(24 + k.view.owner[k.view.current]) + 4 * x + b
      else Base(8) + 4 * (x - SECTION_WORDS) + b
  {
    var p := k.view.owner[k.view.current];
    assert k.l1[..][USER_HEAP] == k.l1[USER_HEAP] && k.l1[..][8] == k.l1[8];
    if x < SECTION_WORDS {
      k.TranslateSection(USER_HEAP, 24 + p, 4 * x + b);
    } else {
      k.TranslateSection(8, 8, 4 * (x - SECTION_WORDS) + b);
    }
  }

  /** A store of the allocator behind its section, whichever process runs, is a write to process 0's data. */
  lemma SlackIsForeign(k: Kernel, x: int, b: int, value: Byte)
    requires k.Valid() && Attached(k.view) && SECTION_WORDS <= x < MEM_WORDS && 0 <= b < 4
    ensures var v, y := k.view, 4 * (x - SECTION_WORDS) + b;
      MemoryHolds(k.memory[..][k.Translate(Addr(x) + b) := value], v.(data := v.data[0 := Put(v.data[0], y, value)]))
  {
    HeapReach(k, x, b);
    SectionWritten(k.memory[..], k.view, 4 * (x - SECTION_WORDS) + b, value);
  }

  lemma SectionWritten(mem: seq<Byte>, v: View, y: int, value: Byte)
    requires Sane(v) && MemoryHolds(mem, v) && 0 <= y < SECTION
    ensures MemoryHolds(mem[Base(8) + y := value], v.(data := v.data[0 := Put(v.data[0], y, value)]))
  {
  }

  /** So process 0 keeps its memory exactly if the byte stored is the one it had. */
  lemma FirstKeeps(k: Kernel, x: int, b: int, value: Byte)
    requires k.Valid() && Attached(k.view) && SECTION_WORDS <= x < MEM_WORDS && 0 <= b < 4
    ensures var v, y := k.view, 4 * (x - SECTION_WORDS) + b;
      MemoryHolds(k.memory[..][k.Translate(Addr(x) + b) := value], v) <==> v.data[0][y] == value
  {
    var v, y := k.view, 4 * (x - SECTION_WORDS) + b;
    var mem := k.memory[..][k.Translate(Addr(x) + b) := value];
    SlackIsForeign(k, x, b, value);
    assert Section(mem, 8 + 0) == Put(v.data[0], y, value) && Put(v.data[0], y, value)[y] == value;
    if v.data[0][y] == value {
      assert Put(v.data[0], y, value) == v.data[0];
      assert v.data[0 := Put(v.data[0], y, value)] == v.data;
    }
  }
}
