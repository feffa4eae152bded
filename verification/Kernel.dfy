/** The process table, the scheduler hooks and the two user windows of the page table, proved to
    implement ProcessView: eight private memories, though all share one window and one physical memory. */
module Kernel {
  import opened Machine
  import opened PageTable
  import opened ProcessView

  const MEMORY_SIZE := 0x1_0000_0000

  datatype Process = Process(id: int, reserved: int, dataAddress: int, threadsActive: int)

  // ----- The view behind the tables and the memory -----

  /** The bytes of physical section s. */
  ghost function Section(mem: seq<Byte>, s: int): seq<Byte>
    requires |mem| == MEMORY_SIZE && 0 <= s < L1_TABLE_SIZE
  {
    mem[Base(s)..Base(s + 1)]
  }

  ghost predicate TablesShow(threads: seq<int>, procs: seq<Process>, spid: int, v: View)
    requires Sane(v)
  {
    && threads == v.owner && |procs| == MAX_PROCESSES && spid == v.last
    && forall p :: 0 <= p < MAX_PROCESSES ==>
      procs[p] == Process(p, if Live(v.owner, p) then 1 else 0, 8 + p, Count(v.owner, p, MAX_THREADS))
  }

  /** Every entry but the two windows is the identity; the windows show process `window`, or the template if it is
      NONE. */
  ghost predicate TableMaps(l1: seq<Word>, window: int) {
    && |l1| == L1_TABLE_SIZE && NONE <= window < MAX_PROCESSES
    && (forall i :: 0 <= i < L1_TABLE_SIZE && i != USER_DATA && i != USER_HEAP ==> l1[i] == InitEntry(i))
    && l1[USER_DATA] == InitEntry(if window == NONE then USER_DATA else 8 + window)
    && l1[USER_HEAP] == InitEntry(if window == NONE then USER_HEAP else 24 + window)
  }

  ghost predicate MemoryHolds(mem: seq<Byte>, v: View)
    requires Sane(v)
  {
    && |mem| == MEMORY_SIZE
    && Section(mem, USER_DATA) == v.template
    && forall p :: 0 <= p < MAX_PROCESSES ==> Section(mem, 8 + p) == v.data[p] && Section(mem, 24 + p) == v.heap[p]
  }

  /** While a thread of process p runs, the windows show p's sections; until the first thread runs, the template. */
  ghost predicate WindowFits(window: int, v: View)
    requires Sane(v)
  {
    (v.booting ==> window == NONE) && (Attached(v) ==> window == v.owner[v.current])
  }

  /** The tables, the page table and the memory implement the view. */
  ghost predicate Implements(threads: seq<int>, procs: seq<Process>, spid: int, l1: seq<Word>, mem: seq<Byte>,
                             window: int, v: View)
    requires Sane(v)
  {
    && TablesShow(threads, procs, spid, v)
    && TableMaps(l1, window)
    && MemoryHolds(mem, v)
    && WindowFits(window, v)
  }

  /** The first n bytes of section s have been copied to section d, and nothing else. */
  ghost predicate CopiedSection(mem: seq<Byte>, mem': seq<Byte>, d: int, s: int, n: int)
    requires |mem| == |mem'| == MEMORY_SIZE && 0 <= d < L1_TABLE_SIZE && 0 <= s < L1_TABLE_SIZE && n <= SECTION
  {
    forall x {:trigger mem'[x]} :: 0 <= x < MEMORY_SIZE ==>
      mem'[x] == if Base(d) <= x < Base(d) + n then mem[x - Base(d) + Base(s)] else mem[x]
  }

  lemma CopyStep(mem: seq<Byte>, mem': seq<Byte>, d: int, s: int, k: int)
    requires |mem| == |mem'| == MEMORY_SIZE && 0 <= d < L1_TABLE_SIZE && 0 <= s < L1_TABLE_SIZE
    requires 0 <= k < SECTION && CopiedSection(mem, mem', d, s, k)
    ensures CopiedSection(mem, mem'[Base(d) + k := mem'[Base(s) + k]], d, s, k + 1)
  {
  }

  lemma SectionCopy(mem: seq<Byte>, mem': seq<Byte>, d: int, s: int, r: int)
    requires |mem| == |mem'| == MEMORY_SIZE && 0 <= d < L1_TABLE_SIZE && 0 <= s < L1_TABLE_SIZE &&
      0 <= r < L1_TABLE_SIZE
    requires CopiedSection(mem, mem', d, s, TEMPLATE_BYTES)
    ensures Section(mem', r) == if r == d then Started(Section(mem, s), Section(mem, d)) else Section(mem, r)
  {
  }

  // ----- Attaching and detaching a thread -----

  lemma CountAttach(owner: seq<int>, id: nat, p: int)
    requires |owner| == MAX_THREADS && id < MAX_THREADS && owner[id] == NONE && p != NONE
    ensures forall q :: q != NONE ==>
      Count(owner[id := p], q, MAX_THREADS) == Count(owner, q, MAX_THREADS) + if q == p then 1 else 0
  {
    forall q | q != NONE
      ensures Count(owner[id := p], q, MAX_THREADS) == Count(owner, q, MAX_THREADS) + if q == p then 1 else 0
    {
      CountUpdate(owner, q, MAX_THREADS, id, p);
    }
  }

  /** A child thread keeps the table right exactly if the process created last still has a thread. */
  lemma ChildAttach(v: View, procs: seq<Process>, id: nat)
    requires Sane(v) && id < MAX_THREADS && v.owner[id] == NONE && TablesShow(v.owner, procs, v.last, v)
    ensures var owner' := v.owner[id := v.last];
      var procs' := procs[v.last := procs[v.last].(threadsActive := procs[v.last].threadsActive + 1)];
      TablesShow(owner', procs', v.last, v.(owner := owner')) <==> Live(v.owner, v.last)
  {
    CountAttach(v.owner, id, v.last);
  }

  /** So the very first creation must not be a child's: nothing is alive, and the process it joins is not marked as
      reserved. */
  lemma ChildFirst(v: View, procs: seq<Process>)
    requires Booted(v) && TablesShow(v.owner, procs, v.last, v)
    ensures var owner' := v.owner[1 := v.last];
      var procs' := procs[v.last := procs[v.last].(threadsActive := procs[v.last].threadsActive + 1)];
      !TablesShow(owner', procs', v.last, v.(owner := owner'))
  {
    CountNone(v.owner, v.last, MAX_THREADS);
    ChildAttach(v, procs, 1);
  }

  lemma ParentAttach(v: View, procs: seq<Process>, id: nat, p: int, w: View)
    requires Sane(v) && Sane(w) && id < MAX_THREADS && v.owner[id] == NONE && TablesShow(v.owner, procs, v.last, v)
    requires 0 <= p < MAX_PROCESSES && w.owner == v.owner[id := p] && w.last == p
    ensures var procs' := procs[p := Process(p, 1, 8 + p, procs[p].threadsActive + 1)];
      TablesShow(w.owner, procs', p, w)
  {
    CountAttach(v.owner, id, p);
  }

  lemma Detach(v: View, procs: seq<Process>, id: nat)
    requires Sane(v) && id < MAX_THREADS && v.owner[id] != NONE && TablesShow(v.owner, procs, v.last, v)
    ensures var p, owner' := v.owner[id], v.owner[id := NONE];
      var n := procs[p].threadsActive - 1;
      TablesShow(owner', procs[p := Process(p, if n <= 0 then 0 else 1, 8 + p, n)], v.last, v.(owner := owner'))
  {
    CountPositive(v.owner, v.owner[id], MAX_THREADS, id);
    forall q | q != NONE
      ensures Count(v.owner[id := NONE], q, MAX_THREADS) ==
        Count(v.owner, q, MAX_THREADS) - if q == v.owner[id] then 1 else 0
    {
      CountUpdate(v.owner, q, MAX_THREADS, id, NONE);
    }
  }

  // ----- The memory of a new process, and window accesses -----

  /** The physical section behind the user data window. */
  function DataSection(window: int): int {
    if window == NONE then USER_DATA else 8 + window
  }

  lemma StartHoldsData(mem: seq<Byte>, mem': seq<Byte>, v: View, s: int, p: int, q: int)
    requires Sane(v) && (v.booting || Attached(v)) && MemoryHolds(mem, v)
    requires 0 <= s < L1_TABLE_SIZE && Section(mem, s) == Source(v) && 0 <= q < MAX_PROCESSES
    requires |mem'| == MEMORY_SIZE && 0 <= p < MAX_PROCESSES && CopiedSection(mem, mem', 8 + p, s, TEMPLATE_BYTES)
    ensures Section(mem', 8 + q) == if q == p then Started(Source(v), v.data[p]) else v.data[q]
  {
    SectionCopy(mem, mem', 8 + p, s, 8 + q);
  }

  lemma StartHoldsHeap(mem: seq<Byte>, mem': seq<Byte>, v: View, s: int, p: int, q: int)
    requires Sane(v) && MemoryHolds(mem, v) && 0 <= s < L1_TABLE_SIZE && 0 <= q < MAX_PROCESSES
    requires |mem'| == MEMORY_SIZE && 0 <= p < MAX_PROCESSES && CopiedSection(mem, mem', 8 + p, s, TEMPLATE_BYTES)
    ensures Section(mem', 24 + q) == v.heap[q] && Section(mem', USER_DATA) == v.template
  {
    SectionCopy(mem, mem', 8 + p, s, 24 + q);
    SectionCopy(mem, mem', 8 + p, s, USER_DATA);
  }

  lemma StartHolds(mem: seq<Byte>, mem': seq<Byte>, v: View, window: int, p: int)
    requires Sane(v) && (v.booting || Attached(v)) && WindowFits(window, v) && MemoryHolds(mem, v)
    requires |mem'| == MEMORY_SIZE && 0 <= p < MAX_PROCESSES &&
      CopiedSection(mem, mem', 8 + p, DataSection(window), TEMPLATE_BYTES)
    ensures MemoryHolds(mem', v.(data := v.data[p := Started(Source(v), v.data[p])]))
  {
    var s := DataSection(window);
    forall q | 0 <= q < MAX_PROCESSES
      ensures Section(mem', 8 + q) == (if q == p then Started(Source(v), v.data[p]) else v.data[q])
      ensures Section(mem', 24 + q) == v.heap[q] && Section(mem', USER_DATA) == v.template
    {
      StartHoldsData(mem, mem', v, s, p, q);
      StartHoldsHeap(mem, mem', v, s, p, q);
    }
    assert Section(mem', 8) == Section(mem', 8 + 0) && Section(mem', USER_DATA) == v.template;
  }

  lemma InitialView(threads: seq<int>, procs: seq<Process>, mem: seq<Byte>) returns (v: View)
    requires |threads| == MAX_THREADS && (forall t :: 0 <= t < MAX_THREADS ==> threads[t] == NONE)
    requires |procs| == MAX_PROCESSES && forall p :: 0 <= p < MAX_PROCESSES ==> procs[p] == Process(p, 0, 8 + p, 0)
    requires |mem| == MEMORY_SIZE
    ensures Sane(v) && v.booting && v.owner == threads && TablesShow(threads, procs, 0, v) && MemoryHolds(mem, v) &&
      WindowFits(NONE, v)
  {
    v := View(threads, 0, seq(MAX_PROCESSES, p requires 0 <= p < MAX_PROCESSES => Section(mem, 8 + p)),
              seq(MAX_PROCESSES, p requires 0 <= p < MAX_PROCESSES => Section(mem, 24 + p)),
              Section(mem, USER_DATA), IDLE, true);
    forall p | 0 <= p < MAX_PROCESSES
      ensures Count(threads, p, MAX_THREADS) == 0
    {
      CountNone(threads, p, MAX_THREADS);
    }
  }

  /** Where an access of the running process in a window ends up. */
  ghost function Reached(v: View, va: int): int
    requires Sane(v) && Attached(v)
  {
    var p := v.owner[v.current];
    if va >= Base(USER_HEAP) then Base(24 + p) + (va - Base(USER_HEAP)) else Base(8 + p) + (va - Base(USER_DATA))
  }

  lemma WriteSteps(mem: seq<Byte>, v: View, va: int, value: Byte)
    requires Sane(v) && MemoryHolds(mem, v) && Legal(v, Write(va, value))
    ensures MemoryHolds(mem[Reached(v, va) := value], Step(v, Write(va, value)))
  {
  }

  lemma MemoryOnly(mem: seq<Byte>, v: View, w: View)
    requires Sane(v) && Sane(w) && MemoryHolds(mem, v)
    requires w.data == v.data && w.heap == v.heap && w.template == v.template
    ensures MemoryHolds(mem, w)
  {
  }

  /** A new process in slot p: the tables, the memory and the windows implement the view after the creation. */
  lemma ParentStep(v: View, threads: seq<int>, procs: seq<Process>, spid: int, l1: seq<Word>, mem: seq<Byte>,
          threads': seq<int>, procs': seq<Process>, mem': seq<Byte>, window: int, id: nat, p: int) returns (w: View)
    requires Sane(v) && Legal(v, Create(id, PARENT)) && id < MAX_THREADS
    requires p == Vacant(v.owner, 0) && p < MAX_PROCESSES
    requires Implements(threads, procs, spid, l1, mem, window, v)
    requires threads' == threads[id := p] && procs' == procs[p := Process(p, 1, 8 + p, procs[p].threadsActive + 1)]
    requires |mem'| == MEMORY_SIZE && CopiedSection(mem, mem', 8 + p, DataSection(window), TEMPLATE_BYTES)
    ensures w == Step(v, Create(id, PARENT)) && Sane(w)
    ensures Implements(threads', procs', p, l1, mem', window, w)
  {
    w := Step(v, Create(id, PARENT));
    StepSane(v, Create(id, PARENT));
    ParentAttach(v, procs, id, p, w);
    StartHolds(mem, mem', v, window, p);
    MemoryOnly(mem', v.(data := v.data[p := Started(Source(v), v.data[p])]), w);
  }

  /** Thread id leaves its process, and the tables implement the view after that. */
  lemma ExitStep(v: View, threads: seq<int>, procs: seq<Process>, spid: int, l1: seq<Word>, mem: seq<Byte>,
          window: int, id: nat) returns (w: View)
    requires Sane(v) && Legal(v, Exit(id)) && id < MAX_THREADS && id != 1
    requires Implements(threads, procs, spid, l1, mem, window, v)
    ensures w == Step(v, Exit(id)) && Sane(w)
    ensures var p := v.owner[id];
      var n := procs[p].threadsActive - 1;
      Implements(threads[id := NONE], procs[p := Process(p, if n <= 0 then 0 else 1, 8 + p, n)], spid, l1, mem,
                 window, w)
  {
    w := Step(v, Exit(id));
    StepSane(v, Exit(id));
    Detach(v, procs, id);
    MemoryOnly(mem, v, w);
  }

  class Kernel {
    const l1: array<Word>
    const threadProcess: array<int>
    const processes: array<Process>
    const memory: array<Byte>
    var template: Word
    var schedulerPid: int
    ghost var window: int
    ghost var view: View

    ghost predicate Shaped()
      reads this
    {
      && l1.Length == L1_TABLE_SIZE && threadProcess.Length == MAX_THREADS
      && processes.Length == MAX_PROCESSES && memory.Length == MEMORY_SIZE
      && l1 as object != threadProcess && l1 as object != memory && threadProcess as object != memory
    }

    ghost predicate Valid()
      reads this, l1, threadProcess, processes, memory
    {
      && Shaped() && Sane(view) && template == InitEntry(USER_DATA)
      && Implements(threadProcess[..], processes[..], schedulerPid, l1[..], memory[..], window, view)
    }

    /** The view that the tables and the memory implement by now. */
    ghost method Adopt(v: View)
      requires Shaped() && template == InitEntry(USER_DATA) && Sane(v)
      requires Implements(threadProcess[..], processes[..], schedulerPid, l1[..], memory[..], window, v)
      modifies this`view
      ensures Valid() && view == v
    {
      view := v;
    }

    // ----- Boot -----

    /** Boot: the page table and the process table are initialised, over whatever the memory holds. */
    constructor ()
      ensures Valid() && view.booting && forall t :: 0 <= t < MAX_THREADS ==> view.owner[t] == NONE
      ensures fresh(l1) && fresh(threadProcess) && fresh(processes) && fresh(memory)
    {
      l1 := new Word[L1_TABLE_SIZE];
      threadProcess := new int[MAX_THREADS];
      processes := new Process[MAX_PROCESSES];
      memory := new Byte[MEMORY_SIZE];
      template, schedulerPid, window := 0, 0, NONE;
      new;
      template := L1TableInit(l1);
      InitThreadProcessArr();
      InitProcessesArray();
      view := InitialView(threadProcess[..], processes[..], memory[..]);
    }

    method InitThreadProcessArr()
      requires threadProcess.Length == MAX_THREADS
      modifies threadProcess
      ensures forall t :: 0 <= t < MAX_THREADS ==> threadProcess[t] == -1
    {
      for i := 0 to MAX_THREADS
        invariant forall t :: 0 <= t < i ==> threadProcess[t] == -1
      {
        threadProcess[i] := -1;
      }
    }

    method InitProcessesArray()
      requires processes.Length == MAX_PROCESSES
      modifies processes
      ensures forall p :: 0 <= p < MAX_PROCESSES ==> processes[p] == Process(p, 0, 8 + p, 0)
    {
      for i := 0 to MAX_PROCESSES
        invariant forall p :: 0 <= p < i ==> processes[p] == Process(p, 0, 8 + p, 0)
      {
        processes[i] := Process(i, 0, 8 + i, 0);
      }
    }

    // ----- Memory through the page table -----

    function Translate(va: int): (pa: int)
      reads l1
      requires l1.Length == L1_TABLE_SIZE && 0 <= va < MEMORY_SIZE
      ensures 0 <= pa < MEMORY_SIZE
    {
      Physical(l1[va / SECTION]) + va % SECTION
    }

    lemma TranslateSection(i: int, j: int, x: int)
      requires l1.Length == L1_TABLE_SIZE && 0 <= i < L1_TABLE_SIZE && 0 <= j < L1_TABLE_SIZE && 0 <= x < SECTION
      requires l1[i] == InitEntry(j)
      ensures Translate(Base(i) + x) == Base(j) + x
    {
      RegionNames(j);
      assert (Base(i) + x) / SECTION == i && (Base(i) + x) % SECTION == x;
    }

    /** Copies bytes upwards, each access translated. No copied byte is read again, and a section copied onto itself is
        left as it was. */
    method Kmemcpy(dest: int, src: int, n: int, ghost i: int, ghost j: int, ghost d: int, ghost s: int)
      requires Shaped() && 0 <= i < L1_TABLE_SIZE && 0 <= j < L1_TABLE_SIZE && 0 <= d < L1_TABLE_SIZE &&
        0 <= s < L1_TABLE_SIZE
      requires dest == Base(i) && src == Base(j) && 0 <= n <= SECTION
      requires l1[i] == InitEntry(d) && l1[j] == InitEntry(s)
      modifies memory
      ensures CopiedSection(old(memory[..]), memory[..], d, s, n)
    {
      for k := 0 to n
        invariant CopiedSection(old(memory[..]), memory[..], d, s, k)
      {
        CopyByte(dest + k, src + k, i, j, d, s, k, old(memory[..]));
      }
    }

    /** Copies byte k of the section. */
    method CopyByte(dest: int, src: int, ghost i: int, ghost j: int, ghost d: int, ghost s: int, ghost k: int,
            ghost before: seq<Byte>)
      requires Shaped() && 0 <= i < L1_TABLE_SIZE && 0 <= j < L1_TABLE_SIZE && 0 <= d < L1_TABLE_SIZE &&
        0 <= s < L1_TABLE_SIZE
      requires 0 <= k < SECTION && dest == Base(i) + k && src == Base(j) + k
      requires l1[i] == InitEntry(d) && l1[j] == InitEntry(s)
      requires |before| == MEMORY_SIZE && CopiedSection(before, memory[..], d, s, k)
      modifies memory
      ensures CopiedSection(before, memory[..], d, s, k + 1)
    {
      TranslateSection(i, d, k);
      TranslateSection(j, s, k);
      CopyStep(before, memory[..], d, s, k);
      memory[Translate(dest)] := memory[Translate(src)];
    }

    // ----- Processes -----

    function GetProcessId(threadId: int): int
      reads threadProcess
      requires threadProcess.Length == MAX_THREADS
    {
      if threadId < 0 || threadId > 31 then -1 else threadProcess[threadId]
    }

    method FindFreeProcessAddress() returns (i: int)
      requires Valid()
      ensures i == if Vacant(view.owner, 0) == MAX_PROCESSES then -1 else Vacant(view.owner, 0)
    {
      for k := 0 to MAX_PROCESSES
        invariant Vacant(view.owner, 0) == Vacant(view.owner, k)
      {
        if processes[k].reserved == 0 {
          return k;
        }
      }
      return -1;
    }

    method CopyUserdataTemplate(newAddress: int, ghost p: int)
      requires Valid() && 0 <= p < MAX_PROCESSES && newAddress == 8 + p
      modifies memory
      ensures CopiedSection(old(memory[..]), memory[..], 8 + p, DataSection(window), TEMPLATE_BYTES)
    {
      RegionNames(newAddress);
      RegionNames(USER_DATA);
      Kmemcpy(Physical(l1[newAddress]), Physical(template), TEMPLATE_BYTES, newAddress, USER_DATA, newAddress,
        DataSection(window));
    }

    method ProcessCreate(parentTid: int) returns (pid: int)
      requires Valid() && 0 <= parentTid < MAX_THREADS
      modifies threadProcess, processes, memory
      ensures pid == if Vacant(view.owner, 0) == MAX_PROCESSES then -1 else Vacant(view.owner, 0)
      ensures pid == -1 ==> Valid() && threadProcess[..] == old(threadProcess[..])
      ensures pid == -1 ==> processes[..] == old(processes[..]) && memory[..] == old(memory[..])
      ensures pid != -1 ==>
        && threadProcess[..] == old(threadProcess[..])[parentTid := pid]
        && processes[..] == old(processes[..])[pid := old(processes[..])[pid].(reserved := 1)]
        && CopiedSection(old(memory[..]), memory[..], 8 + pid, DataSection(window), TEMPLATE_BYTES)
    {
      pid := FindFreeProcessAddress();
      if pid == -1 {
        return;
      }
      assert processes[pid] == processes[..][pid];
      CopyUserdataTemplate(processes[pid].dataAddress, pid);
      threadProcess[parentTid] := pid;
      processes[pid] := processes[pid].(reserved := 1);
    }

    // ----- The scheduler's hooks -----

    /** processes[pid].threads_active += n */
    method CountThreads(pid: int, n: int)
      requires processes.Length == MAX_PROCESSES && 0 <= pid < MAX_PROCESSES
      modifies processes
      ensures processes[..] ==
        old(processes[..])[pid := old(processes[pid]).(threadsActive := old(processes[pid]).threadsActive + n)]
    {
      processes[pid] := processes[pid].(threadsActive := processes[pid].threadsActive + n);
    }

    /** The PARENT branch: the new thread starts a process of its own. */
    method StartProcess(id: int) returns (r: int)
      requires Valid() && id != IDLE && Legal(view, Create(id, PARENT))
      modifies this`schedulerPid, threadProcess, processes, memory
      ensures r == if Vacant(view.owner, 0) == MAX_PROCESSES then -1 else 0
      ensures r == -1 ==> Valid()
      ensures r == 0 ==>
        var p := Vacant(view.owner, 0);
        && threadProcess[..] == old(threadProcess[..])[id := p] && schedulerPid == p
        && processes[..] == old(processes[..])[p := Process(p, 1, 8 + p, old(processes[..])[p].threadsActive + 1)]
        && CopiedSection(old(memory[..]), memory[..], 8 + p, DataSection(window), TEMPLATE_BYTES)
    {
      ghost var procs := processes[..];
      var pid := ProcessCreate(id);
      // The code counts the thread before it looks at pid; for -1 that touches no process.
      if pid == -1 {
        return -1;
      }
      assert procs[pid].id == pid && procs[pid].dataAddress == 8 + pid;
      CountThreads(pid, 1);
      schedulerPid := pid;
      return 0;
    }

    /** A new process, seen on the view. */
    method CreateParent(id: int) returns (r: int)
      requires Valid() && id != IDLE && Legal(view, Create(id, PARENT))
      modifies this, threadProcess, processes, memory
      ensures Valid() && view == Step(old(view), Create(id, PARENT)) && r == Result(old(view), Create(id, PARENT))
    {
      ghost var threads, procs, spid, table, mem := threadProcess[..], processes[..], schedulerPid, l1[..], memory[..];
      r := StartProcess(id);
      if r == 0 {
        AdoptParent(id, threads, procs, spid, table, mem);
      }
    }

    /** The view after the new process; the arguments are the tables and the memory before. */
    ghost method AdoptParent(id: int, threads: seq<int>, procs: seq<Process>, spid: int, table: seq<Word>,
            mem: seq<Byte>)
      requires Shaped() && template == InitEntry(USER_DATA) && Sane(view)
      requires id != IDLE && Legal(view, Create(id, PARENT)) && Vacant(view.owner, 0) < MAX_PROCESSES
      requires Implements(threads, procs, spid, table, mem, window, view) && l1[..] == table
      requires var p := Vacant(view.owner, 0);
        && threadProcess[..] == threads[id := p] && schedulerPid == p
        && processes[..] == procs[p := Process(p, 1, 8 + p, procs[p].threadsActive + 1)]
        && CopiedSection(mem, memory[..], 8 + p, DataSection(window), TEMPLATE_BYTES)
      modifies this`view
      ensures Valid() && view == Step(old(view), Create(id, PARENT))
    {
      var w := ParentStep(view, threads, procs, spid, table, mem, threadProcess[..], processes[..], memory[..], window,
        id, Vacant(view.owner, 0));
      Adopt(w);
    }

    /** The CHILD branch: the new thread joins the process that was created last. */
    method CreateChild(id: int)
      requires Valid() && id != IDLE && Legal(view, Create(id, CHILD))
      modifies this, threadProcess, processes
      ensures Valid() && view == Step(old(view), Create(id, CHILD))
    {
      ghost var v, procs := view, processes[..];
      threadProcess[id] := schedulerPid;
      CountThreads(schedulerPid, 1);
      view := Step(v, Create(id, CHILD));
      ChildAttach(v, procs, id);
    }

    method SchedulerOnCreate(id: int, flags: int) returns (r: int)
      requires Valid() && Legal(view, Create(id, flags))
      modifies this, threadProcess, processes, memory
      ensures Valid() && view == Step(old(view), Create(id, flags)) && r == Result(old(view), Create(id, flags))
      ensures id != -1 && (flags == 0 || flags == 1) ==> (r == 0 || r == -1) && (r == 0 <==> view.owner[id] != -1)
      ensures id == -1 || (flags != 0 && flags != 1) ==> r == 0 && view == old(view)
    {
      CreationCode(view, id, flags);
      if id == -1 {
        return 0;
      }
      if flags == PARENT {
        r := CreateParent(id);
        return;
      } else if flags == CHILD && schedulerPid != -1 {
        CreateChild(id);
      }
      return 0;
    }

    method SchedulerOnExit(id: int)
      requires Valid() && Legal(view, Exit(id))
      modifies this, threadProcess, processes
      ensures Valid() && view == Step(old(view), Exit(id))
    {
      ghost var v, threads, procs := view, threadProcess[..], processes[..];
      if id != -1 && id != 1 {
        var pid := GetProcessId(id);
        CountThreads(pid, -1);
        if processes[pid].threadsActive <= 0 {
          processes[GetProcessId(id)] := processes[GetProcessId(id)].(reserved := 0);
        }
        threadProcess[id] := -1;
        ghost var w := ExitStep(v, threads, procs, schedulerPid, l1[..], memory[..], window, id);
        Adopt(w);
      }
    }

    method MapUserdataTo(to: int)
      requires l1.Length == L1_TABLE_SIZE && 0 <= to < L1_TABLE_SIZE - 16
      modifies l1
      ensures l1[..] == old(l1[..])[USER_DATA := old(l1[to])][USER_HEAP := old(l1[to + 16])]
    {
      l1[USER_DATA] := l1[to];
      l1[USER_HEAP] := l1[to + 16];
    }

    method ProcessSwitch(to: int)
      requires Valid() && 0 <= to < MAX_PROCESSES
      modifies l1
      ensures TableMaps(l1[..], to)
    {
      assert processes[to] == processes[..][to];
      MapUserdataTo(processes[to].dataAddress);
    }

    /** `before` is the thread scheduled last or, during boot, any thread without a process. */
    method SchedulerOnSchedule(before: int, next: int)
      requires Valid() && Legal(view, Schedule(next))
      requires before == view.current || (view.booting && GetProcessId(before) == NONE)
      modifies this, l1
      ensures Valid() && view == Step(old(view), Schedule(next))
    {
      ghost var after := Step(view, Schedule(next));
      if next == -1 {
        view := after;
        return;
      }
      var oldPid := GetProcessId(before);
      var nextPid := GetProcessId(next);
      if oldPid == nextPid {
        view := after;
        return;
      }
      ProcessSwitch(nextPid);
      window := nextPid;
      view := after;
    }

    // ----- A running thread's accesses through the windows -----

    method StoreByte(va: int, value: Byte)
      requires Valid() && Legal(view, Write(va, value))
      modifies this, memory
      ensures Valid() && view == Step(old(view), Write(va, value))
    {
      WindowAccess(va);
      WriteSteps(memory[..], view, va, value);
      memory[Translate(va)] := value;
      view := Step(view, Write(va, value));
    }

    method LoadByte(va: int) returns (value: Byte)
      requires Valid() && Legal(view, Read(va))
      ensures value == Result(view, Read(va))
    {
      ghost var p := view.owner[view.current];
      WindowAccess(va);
      value := memory[Translate(va)];
      assert Section(memory[..], 8 + p) == view.data[p] && Section(memory[..], 24 + p) == view.heap[p];
    }

    /** An access in a window reaches the running process's own section. */
    lemma WindowAccess(va: int)
      requires Valid() && Attached(view) && Base(USER_DATA) <= va < Base(USER_HEAP + 1)
      ensures Translate(va) == Reached(view, va)
    {
      var p := view.owner[view.current];
      if va >= Base(USER_HEAP) {
        TranslateSection(USER_HEAP, 24 + p, va - Base(USER_HEAP));
      } else {
        TranslateSection(USER_DATA, 8 + p, va - Base(USER_DATA));
      }
    }

    // ----- Runs -----

    /** One call of the kernel, or one access of the running thread; `before` is the thread scheduled last. */
    method Perform(e: Event, before: int) returns (r: int)
      requires Valid() && Legal(view, e)
      requires before == view.current
      modifies this, l1, threadProcess, processes, memory
      ensures Valid() && view == Step(old(view), e) && r == Result(old(view), e)
    {
      r := 0;
      match e {
        case Create(id, flags) => r := SchedulerOnCreate(id, flags);
        case Exit(id) => SchedulerOnExit(id);
        case Schedule(next) => SchedulerOnSchedule(before, next);
        case Write(va, value) => StoreByte(va, value);
        case Read(va) => r := LoadByte(va);
      }
    }

    /** Over any legal run the kernel answers as if every process had a memory of its own. */
    method PerformAll(es: seq<Event>, before: int) returns (rs: seq<int>)
      requires Valid() && LegalRun(view, es) && before == view.current
      modifies this, l1, threadProcess, processes, memory
      ensures Valid() && rs == Results(old(view), es) && view == After(old(view), es)
      decreases |es|
    {
      if es == [] {
        return [];
      }
      RunUnfolds(view, es);
      var r := Perform(es[0], before);
      var rest := PerformAll(es[1..], if es[0].Schedule? then es[0].next else before);
      return [r] + rest;
    }
  }

  /** A creation copies between two different sections, because a running thread makes it, or boot does. Without one,
      the copy would read the section it writes exactly if the window still showed the process that is reused. */
  lemma CreationSource(k: Kernel)
    requires k.Valid() && Vacant(k.view.owner, 0) < MAX_PROCESSES
    ensures k.view.booting || Attached(k.view) ==> DataSection(k.window) != 8 + Vacant(k.view.owner, 0)
    ensures DataSection(k.window) == 8 + Vacant(k.view.owner, 0) <==>
      && k.window != NONE && !Live(k.view.owner, k.window)
      && forall r :: 0 <= r < k.window ==> Live(k.view.owner, r)
  {
    VacantLowest(k.view.owner, 0);
    if Attached(k.view) { VacantElsewhere(k.view); }
  }

  /** While a thread of process p runs, entries 6 and 7 are those of p's sections; all the others never change. */
  lemma WindowsShowOwner(k: Kernel)
    requires k.Valid()
    ensures Attached(k.view) ==>
      var p := k.view.owner[k.view.current];
      && k.l1[6] == k.l1[8 + p] == 0x10_0000 * (8 + p) + 0xC02
      && k.l1[7] == k.l1[24 + p] == 0x10_0000 * (24 + p) + 0xC02
    ensures forall i :: 0 <= i < 4096 && i != 6 && i != 7 ==> k.l1[i] == InitEntry(i)
    ensures 8 <= k.l1[6] / 0x10_0000 < 16 || k.l1[6] / 0x10_0000 == 6
    ensures 24 <= k.l1[7] / 0x10_0000 < 32 || k.l1[7] / 0x10_0000 == 7
    ensures forall i :: 0 <= i < 4096 ==>
      k.l1[i] % 0x400 == 2 && k.l1[i] / 0x1000 % 8 == 0 && k.l1[i] / 0x1_0000 % 16 == 0
  {
    var data := if k.window == NONE then USER_DATA else 8 + k.window;
    var heap := if k.window == NONE then USER_HEAP else 24 + k.window;
    forall i | 0 <= i < 4096
      ensures k.l1[i] == InitEntry(if i == 6 then data else if i == 7 then heap else i) && SectionDescriptor(k.l1[i])
    {
      assert k.l1[..][i] == k.l1[i];
      EntryDescribes(if i == 6 then data else if i == 7 then heap else i);
    }
    EntryDescribes(data);
    EntryDescribes(heap);
  }
}
