/** What a user of the process table may think it does: every thread belongs to at most one of eight
    processes, each with a memory of its own. No page table, no counters, no reserved flags. */
module ProcessView {
  import opened PageTable

  type Byte = x: int | 0 <= x < 256

  // The template copy stops here: MB is 10000 in the source.
  const TEMPLATE_BYTES := 10000
  const PARENT := 0
  const CHILD := 1
  const IDLE := -1
  const NONE := -1

  /** owner: the process of each thread, or NONE. last: the process created last. data and heap: the private
      memories. current: the running thread, or IDLE. booting: no thread has been scheduled yet. */
  datatype View = View(owner: seq<int>, last: int, data: seq<seq<Byte>>, heap: seq<seq<Byte>>, template: seq<Byte>,
                       current: int, booting: bool)

  datatype Event =
    | Create(id: int, flags: int)
    | Exit(id: int)
    | Schedule(next: int)
    | Write(va: int, value: Byte)
    | Read(va: int)

  ghost predicate Sane(v: View) {
    && |v.owner| == MAX_THREADS && (forall t :: 0 <= t < MAX_THREADS ==> NONE <= v.owner[t] < MAX_PROCESSES)
    && 0 <= v.last < MAX_PROCESSES
    && |v.data| == MAX_PROCESSES && |v.heap| == MAX_PROCESSES && |v.template| == SECTION
    && (forall p :: 0 <= p < MAX_PROCESSES ==> |v.data[p]| == SECTION && |v.heap[p]| == SECTION)
    && IDLE <= v.current < MAX_THREADS && (v.booting ==> v.current == IDLE)
  }

  /** How many of the threads below t belong to process p. */
  function Count(owner: seq<int>, p: int, t: nat): nat
    requires t <= |owner|
  {
    if t == 0 then 0 else Count(owner, p, t - 1) + (if owner[t - 1] == p then 1 else 0)
  }

  predicate Live(owner: seq<int>, p: int) {
    Count(owner, p, |owner|) > 0
  }

  lemma {:induction false} CountUpdate(owner: seq<int>, p: int, t: nat, id: nat, v: int)
    requires t <= |owner| && id < |owner|
    ensures Count(owner[id := v], p, t) == Count(owner, p, t) +
      if id >= t then 0 else (if v == p then 1 else 0) - (if owner[id] == p then 1 else 0)
  {
    if t > 0 { CountUpdate(owner, p, t - 1, id, v); }
  }

  lemma {:induction false} CountNone(owner: seq<int>, p: int, t: nat)
    requires t <= |owner| && forall i :: 0 <= i < t ==> owner[i] != p
    ensures Count(owner, p, t) == 0
  {
    if t > 0 { CountNone(owner, p, t - 1); }
  }

  lemma {:induction false} CountPositive(owner: seq<int>, p: int, t: nat, id: nat)
    requires id < t <= |owner| && owner[id] == p
    ensures Count(owner, p, t) > 0
  {
    if id < t - 1 { CountPositive(owner, p, t - 1, id); }
  }

  lemma {:induction false} CountWitness(owner: seq<int>, p: int, t: nat) returns (id: nat)
    requires t <= |owner| && Count(owner, p, t) > 0
    ensures id < t && owner[id] == p
  {
    if owner[t - 1] == p { id := t - 1; } else { id := CountWitness(owner, p, t - 1); }
  }

  /** The lowest process from p on that no thread belongs to, or MAX_PROCESSES. */
  function Vacant(owner: seq<int>, p: nat): (q: nat)
    requires p <= MAX_PROCESSES
    ensures p <= q <= MAX_PROCESSES
    decreases MAX_PROCESSES - p
  {
    if p == MAX_PROCESSES || !Live(owner, p) then p else Vacant(owner, p + 1)
  }

  /** A thread that belongs to a process is running. */
  predicate Attached(v: View) {
    0 <= v.current < |v.owner| && v.owner[v.current] != NONE
  }

  /** An address in one of the two user windows. */
  predicate InWindow(va: int) {
    Base(USER_DATA) <= va < Base(USER_HEAP + 1)
  }

  /** The kernel's calling discipline. */
  ghost predicate Legal(v: View, e: Event)
    requires Sane(v)
  {
    match e
    case Create(id, flags) =>
      id == IDLE || (0 <= id < MAX_THREADS && v.owner[id] == NONE && (v.booting || Attached(v)) &&
        (flags == CHILD ==> Live(v.owner, v.last)))
    case Exit(id) => id == IDLE || id == 1 || (0 <= id < MAX_THREADS && v.owner[id] != NONE)
    case Schedule(next) => next == IDLE || (0 <= next < MAX_THREADS && v.owner[next] != NONE)
    case Write(va, _) => Attached(v) && InWindow(va)
    case Read(va) => Attached(v) && InWindow(va)
  }

  /** The bytes a new process starts from: its creator's data, or the template while booting. */
  ghost function Source(v: View): seq<Byte>
    requires Sane(v) && (v.booting || Attached(v))
  {
    if v.booting then v.template else v.data[v.owner[v.current]]
  }

  ghost function Started(source: seq<Byte>, before: seq<Byte>): seq<Byte>
    requires |source| == |before| == SECTION
  {
    source[..TEMPLATE_BYTES] + before[TEMPLATE_BYTES..]
  }

  function Put(bytes: seq<Byte>, x: int, value: Byte): seq<Byte>
    requires 0 <= x < |bytes|
  {
    bytes[x := value]
  }

  /** The byte of process q's memory that its threads see at va. */
  ghost function ByteAt(v: View, q: int, va: int): Byte
    requires Sane(v) && 0 <= q < MAX_PROCESSES && InWindow(va)
  {
    if va < Base(USER_HEAP) then v.data[q][va - Base(USER_DATA)] else v.heap[q][va - Base(USER_HEAP)]
  }

  ghost function Step(v: View, e: Event): View
    requires Sane(v) && Legal(v, e)
  {
    match e
    case Create(id, flags) =>
      if id == IDLE then v
      else if flags == PARENT then
        var p := Vacant(v.owner, 0);
        if p == MAX_PROCESSES then v
        else v.(owner := v.owner[id := p], last := p, data := v.data[p := Started(Source(v), v.data[p])])
      else if flags == CHILD then v.(owner := v.owner[id := v.last])
      else v
    case Exit(id) => if id == IDLE || id == 1 then v else v.(owner := v.owner[id := NONE])
    case Schedule(next) => if next == IDLE then v.(current := IDLE) else v.(current := next, booting := false)
    case Write(va, value) =>
      var p := v.owner[v.current];
      if va < Base(USER_HEAP) then v.(data := v.data[p := Put(v.data[p], va - Base(USER_DATA), value)])
      else v.(heap := v.heap[p := Put(v.heap[p], va - Base(USER_HEAP), value)])
    case Read(_) => v
  }

  /** What the caller sees: the return code of a creation, the byte read, and 0 otherwise. */
  ghost function Result(v: View, e: Event): int
    requires Sane(v) && Legal(v, e)
  {
    match e
    case Create(id, flags) => if id != IDLE && flags == PARENT && Vacant(v.owner, 0) == MAX_PROCESSES then -1 else 0
    case Read(va) => ByteAt(v, v.owner[v.current], va)
    case _ => 0
  }

  lemma StepSane(v: View, e: Event)
    requires Sane(v) && Legal(v, e)
    ensures Sane(Step(v, e))
  {
  }

  // ----- Runs -----

  ghost predicate LegalRun(v: View, es: seq<Event>)
    requires Sane(v)
    decreases |es|
  {
    es == [] || (Legal(v, es[0]) && (StepSane(v, es[0]); LegalRun(Step(v, es[0]), es[1..])))
  }

  ghost function After(v: View, es: seq<Event>): (w: View)
    requires Sane(v) && LegalRun(v, es)
    ensures Sane(w)
    decreases |es|
  {
    if es == [] then v else StepSane(v, es[0]); After(Step(v, es[0]), es[1..])
  }

  ghost function Results(v: View, es: seq<Event>): seq<int>
    requires Sane(v) && LegalRun(v, es)
    decreases |es|
  {
    if es == [] then [] else StepSane(v, es[0]); [Result(v, es[0])] + Results(Step(v, es[0]), es[1..])
  }

  lemma RunUnfolds(v: View, es: seq<Event>)
    requires Sane(v) && LegalRun(v, es) && es != []
    ensures Legal(v, es[0]) && Sane(Step(v, es[0])) && LegalRun(Step(v, es[0]), es[1..])
    ensures Results(v, es) == [Result(v, es[0])] + Results(Step(v, es[0]), es[1..])
    ensures After(v, es) == After(Step(v, es[0]), es[1..])
    ensures Step(v, es[0]).current == if es[0].Schedule? then es[0].next else v.current
  {
    StepSane(v, es[0]);
  }

  /** A run is built from its first event and a legal rest. */
  lemma RunBuilds(v: View, es: seq<Event>, rest: seq<Event>)
    requires Sane(v) && es != [] && Legal(v, es[0]) && es[1..] == rest
    requires Sane(Step(v, es[0])) && LegalRun(Step(v, es[0]), rest)
    ensures LegalRun(v, es)
    ensures After(v, es) == After(Step(v, es[0]), rest)
    ensures Results(v, es) == [Result(v, es[0])] + Results(Step(v, es[0]), rest)
  {
  }

  lemma {:induction false} RunsJoin(v: View, es: seq<Event>, rest: seq<Event>)
    requires Sane(v) && LegalRun(v, es) && LegalRun(After(v, es), rest)
    ensures LegalRun(v, es + rest) && After(v, es + rest) == After(After(v, es), rest)
    decreases |es|
  {
    if es == [] {
      assert es + rest == rest;
    } else {
      RunUnfolds(v, es);
      RunsJoin(Step(v, es[0]), es[1..], rest);
      RunBuilds(v, es + rest, es[1..] + rest);
    }
  }

  /** The process that e starts, or NONE. */
  ghost function Starts(v: View, e: Event): int
    requires Sane(v) && Legal(v, e)
  {
    if e.Create? && e.id != IDLE && e.flags == PARENT && Vacant(v.owner, 0) < MAX_PROCESSES then Vacant(v.owner, 0)
    else NONE
  }

  // ----- Private memories -----

  /** e writes the byte of process q at va: q itself runs and writes there, or a new process is started in slot q and
      va is within the copy. */
  ghost predicate Touches(v: View, e: Event, q: int, va: int)
    requires Sane(v) && Legal(v, e)
  {
    match e
    case Create(_, _) => q != NONE && Starts(v, e) == q && Base(USER_DATA) <= va < Base(USER_DATA) + TEMPLATE_BYTES
    case Write(a, _) => v.owner[v.current] == q && a == va
    case _ => false
  }

  ghost predicate TouchesInRun(v: View, es: seq<Event>, q: int, va: int)
    requires Sane(v) && LegalRun(v, es)
    decreases |es|
  {
    es != [] && (Touches(v, es[0], q, va) || (StepSane(v, es[0]); TouchesInRun(Step(v, es[0]), es[1..], q, va)))
  }

  lemma ByteStep(v: View, e: Event, q: int, va: int)
    requires Sane(v) && Legal(v, e) && Sane(Step(v, e)) && 0 <= q < MAX_PROCESSES && InWindow(va)
    requires !Touches(v, e, q, va)
    ensures ByteAt(Step(v, e), q, va) == ByteAt(v, q, va)
  {
  }

  /** Whatever the others do, and whatever the process itself writes elsewhere, a byte keeps its value. */
  lemma {:induction false} ByteKept(v: View, es: seq<Event>, q: int, va: int)
    requires Sane(v) && LegalRun(v, es) && 0 <= q < MAX_PROCESSES && InWindow(va) && !TouchesInRun(v, es, q, va)
    ensures ByteAt(After(v, es), q, va) == ByteAt(v, q, va)
    decreases |es|
  {
    if es != [] {
      StepSane(v, es[0]);
      ByteStep(v, es[0], q, va);
      ByteKept(Step(v, es[0]), es[1..], q, va);
    }
  }

  /** A process of which no byte is touched keeps its whole memory. */
  lemma MemoryKept(v: View, es: seq<Event>, q: int)
    requires Sane(v) && LegalRun(v, es) && 0 <= q < MAX_PROCESSES
    requires forall va :: InWindow(va) ==> !TouchesInRun(v, es, q, va)
    ensures After(v, es).data[q] == v.data[q] && After(v, es).heap[q] == v.heap[q]
  {
    var w := After(v, es);
    forall x | 0 <= x < SECTION
      ensures w.data[q][x] == v.data[q][x] && w.heap[q][x] == v.heap[q][x]
    {
      ByteKept(v, es, q, Base(USER_DATA) + x);
      ByteKept(v, es, q, Base(USER_HEAP) + x);
    }
  }

  /** A read returns the last write to that address made in the same process, whatever its threads and the others did in
      between; behind the copy, even if the process ended and its slot was given to another. */
  lemma LastWriteRead(v: View, va: int, value: Byte, es: seq<Event>)
    requires Sane(v) && Legal(v, Write(va, value)) && Sane(Step(v, Write(va, value)))
    requires LegalRun(Step(v, Write(va, value)), es)
    requires var q, w := v.owner[v.current], Step(v, Write(va, value));
      && !TouchesInRun(w, es, q, va)
      && Attached(After(w, es)) && After(w, es).owner[After(w, es).current] == q
    ensures Result(After(Step(v, Write(va, value)), es), Read(va)) == value
  {
    ByteKept(Step(v, Write(va, value)), es, v.owner[v.current], va);
  }

  /** Until it is written, a new process reads each of its first bytes as its source had it at the creation. */
  lemma CreatedReadBack(v: View, id: int, x: int, es: seq<Event>)
    requires Sane(v) && Legal(v, Create(id, PARENT)) && id != IDLE && Vacant(v.owner, 0) < MAX_PROCESSES
    requires 0 <= x < TEMPLATE_BYTES
    requires Sane(Step(v, Create(id, PARENT))) && LegalRun(Step(v, Create(id, PARENT)), es)
    requires var q, w := Vacant(v.owner, 0), Step(v, Create(id, PARENT));
      && !TouchesInRun(w, es, q, Base(USER_DATA) + x)
      && Attached(After(w, es)) && After(w, es).owner[After(w, es).current] == q
    ensures Result(After(Step(v, Create(id, PARENT)), es), Read(Base(USER_DATA) + x)) == Source(v)[x]
  {
    ByteKept(Step(v, Create(id, PARENT)), es, Vacant(v.owner, 0), Base(USER_DATA) + x);
  }

  /** Of the memory that a slot's previous process left, a byte survives a creation exactly if it lies behind the copy
      or the source holds the same value. */
  lemma SurvivesCreation(v: View, id: int, va: int)
    requires Sane(v) && Legal(v, Create(id, PARENT)) && id != IDLE && Vacant(v.owner, 0) < MAX_PROCESSES
    requires InWindow(va) && Sane(Step(v, Create(id, PARENT)))
    ensures var p := Vacant(v.owner, 0);
      ByteAt(Step(v, Create(id, PARENT)), p, va) == ByteAt(v, p, va) <==>
        va >= Base(USER_DATA) + TEMPLATE_BYTES || Source(v)[va - Base(USER_DATA)] == ByteAt(v, p, va)
  {
  }

  // ----- Which process a child joins -----

  /** The process that event j of a run starts, or NONE. */
  ghost function StartsAt(v: View, es: seq<Event>, j: nat): int
    requires Sane(v) && LegalRun(v, es) && j < |es|
    decreases |es|
  {
    if j == 0 then Starts(v, es[0]) else StepSane(v, es[0]); StartsAt(Step(v, es[0]), es[1..], j - 1)
  }

  /** Event k of a run starts process p, and no later one does. */
  ghost predicate LastStart(v: View, es: seq<Event>, p: int, k: nat)
    requires Sane(v) && LegalRun(v, es)
  {
    k < |es| && StartsAt(v, es, k) == p && forall j :: k < j < |es| ==> StartsAt(v, es, j) != p
  }

  ghost predicate NoneStartsFrom(v: View, es: seq<Event>, k: nat)
    requires Sane(v) && LegalRun(v, es)
  {
    forall j :: k <= j < |es| ==> StartsAt(v, es, j) == NONE
  }

  lemma NoneStartsUnfolds(v: View, es: seq<Event>, k: nat)
    requires Sane(v) && LegalRun(v, es) && es != [] && Sane(Step(v, es[0])) && LegalRun(Step(v, es[0]), es[1..])
    ensures NoneStartsFrom(v, es, k + 1) <==> NoneStartsFrom(Step(v, es[0]), es[1..], k)
    ensures NoneStartsFrom(v, es, 0) <==> Starts(v, es[0]) == NONE && NoneStartsFrom(v, es, 1)
  {
    var w, rest := Step(v, es[0]), es[1..];
    assert forall j :: 0 <= j < |rest| ==> StartsAt(w, rest, j) == StartsAt(v, es, j + 1);
    assert forall j :: 0 < j < |es| ==> StartsAt(v, es, j) == StartsAt(w, rest, j - 1);
    assert StartsAt(v, es, 0) == Starts(v, es[0]);
  }

  lemma ThreadsComeFromStarts(v: View, e: Event, p: int)
    requires Sane(v) && Legal(v, e) && 0 <= p < MAX_PROCESSES && p !in v.owner && p in Step(v, e).owner
    ensures Starts(v, e) == p
  {
    if e.Create? && e.flags == CHILD && e.id != IDLE {
      var t := CountWitness(v.owner, v.last, MAX_THREADS);
    }
  }

  /** The last start of process p in a run, if there is one: p is the process created last just when nothing is
      started after it. */
  lemma {:induction false} NewestSinceStart(v: View, es: seq<Event>, p: int) returns (k: int)
    requires Sane(v) && LegalRun(v, es) && 0 <= p < MAX_PROCESSES
    ensures k >= 0 ==> LastStart(v, es, p, k) && (After(v, es).last == p <==> NoneStartsFrom(v, es, k + 1))
    ensures k < 0 ==> (forall j :: 0 <= j < |es| ==> StartsAt(v, es, j) != p)
    ensures k < 0 ==> (After(v, es).last == p <==> v.last == p && NoneStartsFrom(v, es, 0))
    ensures k < 0 ==> (p in After(v, es).owner ==> p in v.owner)
    decreases |es|
  {
    k := -1;
    if es != [] {
      StepSane(v, es[0]);
      var w := Step(v, es[0]);
      var k' := NewestSinceStart(w, es[1..], p);
      NoneStartsUnfolds(v, es, if k' >= 0 then k' + 1 else 0);
      assert forall j :: 0 < j < |es| ==> StartsAt(v, es, j) == StartsAt(w, es[1..], j - 1);
      k := if k' >= 0 then k' + 1 else if Starts(v, es[0]) == p then 0 else -1;
      if k < 0 && p !in v.owner && p in w.owner { ThreadsComeFromStarts(v, es[0], p); }
    }
  }

  /** Every running process was started by some event k of its run. A child created now joins its creator's process
      if and only if no process has been started since k. */
  lemma ChildJoinsCreator(v: View, es: seq<Event>, id: int) returns (k: nat)
    requires Sane(v) && (forall t :: 0 <= t < MAX_THREADS ==> v.owner[t] == NONE) && LegalRun(v, es)
    requires Attached(After(v, es)) && Legal(After(v, es), Create(id, CHILD)) && id != IDLE
    ensures var w := After(v, es);
      var p := w.owner[w.current];
      && LastStart(v, es, p, k)
      && (Step(w, Create(id, CHILD)).owner[id] == p <==> NoneStartsFrom(v, es, k + 1))
  {
    var w := After(v, es);
    k := NewestSinceStart(v, es, w.owner[w.current]);
  }

  // ----- Slots of processes -----

  /** A creation that asks for a process answers 0 exactly if the thread has one afterwards, and -1 otherwise. Any other
      creation answers 0 and attaches nothing. */
  lemma CreationCode(v: View, id: int, flags: int)
    requires Sane(v) && Legal(v, Create(id, flags))
    ensures var w, r := Step(v, Create(id, flags)), Result(v, Create(id, flags));
      if id != -1 && (flags == 0 || flags == 1) then
        && (r == 0 || r == -1) && (r == 0 <==> w.owner[id] != -1)
        && forall t :: 0 <= t < 32 && t != id ==> w.owner[t] == v.owner[t]
      else r == 0 && w == v
  {
  }

  /** Thread 1 and the idle thread never leave a process; any other thread that exits has none afterwards. */
  lemma ExitDetaches(v: View, id: int)
    requires Sane(v) && Legal(v, Exit(id))
    ensures var w := Step(v, Exit(id));
      && w.(owner := v.owner) == v
      && (if id == -1 || id == 1 then w == v else w.owner[id] == -1 && forall t :: 0 <= t < 32 && t != id ==>
        w.owner[t] == v.owner[t])
  {
  }

  /** Scheduling changes nothing but who runs; while nobody does, no access is possible. */
  lemma ScheduleRuns(v: View, next: int, va: int)
    requires Sane(v) && Legal(v, Schedule(next)) && Sane(Step(v, Schedule(next)))
    ensures var w := Step(v, Schedule(next));
      && w.current == next && (next != -1 ==> !w.booting) && w.(current := v.current, booting := v.booting) == v
      && (Legal(w, Read(va)) <==> next != -1 && 0x60_0000 <= va < 0x80_0000)
  {
  }

  /** The copy of a creation reaches the first 10000 bytes of the new process's data and nothing else. */
  lemma CopiedBytes(v: View, id: int)
    requires Sane(v) && Legal(v, Create(id, PARENT)) && id != IDLE && Vacant(v.owner, 0) < 8
    ensures var p, w := Vacant(v.owner, 0), Step(v, Create(id, PARENT));
      && w.data[p][9999] == Source(v)[9999] && w.data[p][10000] == v.data[p][10000]
      && (forall x :: 0 <= x < 10000 ==> w.data[p][x] == Source(v)[x])
      && (forall x :: 10000 <= x < 0x10_0000 ==> w.data[p][x] == v.data[p][x])
      && (forall q :: 0 <= q < 8 && q != p ==> w.data[q] == v.data[q]) && w.heap == v.heap && w.template == v.template
  {
  }

  /** The last thread to exit, and no other, frees its process. */
  lemma LastExitFrees(v: View, id: int)
    requires Sane(v) && Legal(v, Exit(id)) && id != IDLE && id != 1
    ensures var p := v.owner[id];
      Live(Step(v, Exit(id)).owner, p) <==> exists t :: 0 <= t < 32 && t != id && v.owner[t] == p
  {
    var p, owner' := v.owner[id], v.owner[id := NONE];
    if Live(owner', p) {
      var t := CountWitness(owner', p, MAX_THREADS);
      assert t != id && v.owner[t] == p;
    }
    if t :| 0 <= t < MAX_THREADS && t != id && v.owner[t] == p {
      CountPositive(owner', p, MAX_THREADS, t);
    }
  }

  /** A new process starts from the template just when it is created during boot, or its creator's first bytes still
      are the template's. */
  lemma StartsFromTemplate(v: View, id: int)
    requires Sane(v) && Legal(v, Create(id, PARENT)) && id != IDLE && Vacant(v.owner, 0) < MAX_PROCESSES
    ensures var p := Vacant(v.owner, 0);
      Step(v, Create(id, PARENT)).data[p][..TEMPLATE_BYTES] == v.template[..TEMPLATE_BYTES] <==>
        v.booting || v.data[v.owner[v.current]][..TEMPLATE_BYTES] == v.template[..TEMPLATE_BYTES]
  {
    var p := Vacant(v.owner, 0);
    assert Started(Source(v), v.data[p])[..TEMPLATE_BYTES] == Source(v)[..TEMPLATE_BYTES];
  }

  /** A creation is refused exactly when every process has a thread. */
  lemma {:induction false} RefusedWhenFull(v: View, id: int)
    requires Sane(v) && Legal(v, Create(id, PARENT)) && id != IDLE
    ensures Result(v, Create(id, PARENT)) == -1 <==> forall p :: 0 <= p < 8 ==> Live(v.owner, p)
  {
    VacantLowest(v.owner, 0);
  }

  lemma {:induction false} VacantLowest(owner: seq<int>, p: nat)
    requires p <= MAX_PROCESSES
    ensures var q := Vacant(owner, p);
      (q < MAX_PROCESSES ==> !Live(owner, q)) && forall r :: p <= r < q ==> Live(owner, r)
    decreases MAX_PROCESSES - p
  {
    if p < MAX_PROCESSES && Live(owner, p) { VacantLowest(owner, p + 1); }
  }

  /** The slot of a new process is not its creator's. */
  lemma VacantElsewhere(v: View)
    requires Sane(v) && Attached(v) && Vacant(v.owner, 0) < MAX_PROCESSES
    ensures Vacant(v.owner, 0) != v.owner[v.current]
  {
    VacantLowest(v.owner, 0);
    CountPositive(v.owner, v.owner[v.current], |v.owner|, v.current);
  }

  // ----- Runs from boot -----

  ghost predicate Booted(v: View) {
    Sane(v) && v.booting && v.owner == seq(MAX_THREADS, _ => NONE)
  }

  lemma OnlyFirstLive(owner: seq<int>)
    requires |owner| == MAX_THREADS && owner[1] == 0 && forall t :: 0 <= t < MAX_THREADS && t != 1 ==> owner[t] == NONE
    ensures Vacant(owner, 0) == 1
  {
    CountPositive(owner, 0, MAX_THREADS, 1);
    CountNone(owner, 1, MAX_THREADS);
    assert Vacant(owner, 0) == Vacant(owner, 1);
  }

  /** Thread 1 of process 0 runs, and no other thread has a process. */
  ghost predicate FirstRuns(v: View) {
    && Sane(v) && !v.booting && v.current == 1
    && v.owner[1] == 0 && forall t :: 0 <= t < MAX_THREADS && t != 1 ==> v.owner[t] == NONE
  }

  lemma FirstStarts(v: View)
    requires Booted(v)
    ensures Legal(v, Create(1, PARENT)) && Sane(Step(v, Create(1, PARENT)))
    ensures var w := Step(v, Create(1, PARENT));
      Legal(w, Schedule(1)) && FirstRuns(Step(w, Schedule(1))) && Vacant(Step(w, Schedule(1)).owner, 0) == 1
  {
    CountNone(v.owner, 0, MAX_THREADS);
    OnlyFirstLive(v.owner[1 := 0]);
  }

  /** What the first process writes into its data, the second process starts with. */
  lemma SecondInheritsWrite(v: View, value: Byte)
    requires Booted(v)
    ensures var es := [Create(1, PARENT), Schedule(1), Write(Base(USER_DATA), value), Create(2, PARENT)];
      LegalRun(v, es) && After(v, es).data[1][0] == value
  {
    FirstStarts(v);
    var es0 := [Create(1, PARENT), Schedule(1), Write(Base(USER_DATA), value), Create(2, PARENT)];
    var es1 := [Schedule(1), Write(Base(USER_DATA), value), Create(2, PARENT)];
    var es2 := [Write(Base(USER_DATA), value), Create(2, PARENT)];
    var es3 := [Create(2, PARENT)];
    var v1 := Step(v, es0[0]);
    var v2 := Step(v1, es1[0]);
    var v3 := Step(v2, es2[0]);
    RunBuilds(v3, es3, []);
    RunBuilds(v2, es2, es3);
    RunBuilds(v1, es1, es2);
    RunBuilds(v, es0, es1);
  }

  /** A child created by the first process after it has created a second one joins the second. */
  lemma ChildJoinsOther(v: View)
    requires Booted(v)
    ensures var es := [Create(1, PARENT), Schedule(1), Create(2, PARENT), Create(3, CHILD)];
      LegalRun(v, es) && After(v, es).current == 1 && After(v, es).owner[1] == 0 && After(v, es).owner[3] == 1
  {
    FirstStarts(v);
    var es0 := [Create(1, PARENT), Schedule(1), Create(2, PARENT), Create(3, CHILD)];
    var es1 := [Schedule(1), Create(2, PARENT), Create(3, CHILD)];
    var es2 := [Create(2, PARENT), Create(3, CHILD)];
    var es3 := [Create(3, CHILD)];
    var v1 := Step(v, es0[0]);
    var v2 := Step(v1, es1[0]);
    var v3 := Step(v2, es2[0]);
    CountPositive(v3.owner, 1, MAX_THREADS, 2);
    RunBuilds(v3, es3, []);
    RunBuilds(v2, es2, es3);
    RunBuilds(v1, es1, es2);
    RunBuilds(v, es0, es1);
  }

  lemma SecondWrites(v: View, va: int, value: Byte) returns (w: View)
    requires FirstRuns(v) && Vacant(v.owner, 0) == 1 && InWindow(va)
    ensures var es := [Create(2, PARENT), Schedule(2), Write(va, value)];
      LegalRun(v, es) && w == After(v, es)
    ensures Sane(w) && !w.booting && w.owner == v.owner[2 := 1] && ByteAt(w, 1, va) == value
  {
    var es0 := [Create(2, PARENT), Schedule(2), Write(va, value)];
    var es1 := [Schedule(2), Write(va, value)];
    var es2 := [Write(va, value)];
    var v1 := Step(v, es0[0]);
    var v2 := Step(v1, es1[0]);
    w := Step(v2, es2[0]);
    RunBuilds(v2, es2, []);
    RunBuilds(v1, es1, es2);
    RunBuilds(v, es0, es1);
  }

  lemma SecondExits(v: View) returns (w: View)
    requires Sane(v) && !v.booting && v.owner[1] == 0 && v.owner[2] == 1
    requires forall t :: 0 <= t < MAX_THREADS && t != 1 && t != 2 ==> v.owner[t] == NONE
    ensures LegalRun(v, [Exit(2), Schedule(1)]) && w == After(v, [Exit(2), Schedule(1)])
    ensures FirstRuns(w) && Vacant(w.owner, 0) == 1 && w.data == v.data && w.heap == v.heap
  {
    var es0, es1 := [Exit(2), Schedule(1)], [Schedule(1)];
    var v1 := Step(v, es0[0]);
    w := Step(v1, es1[0]);
    OnlyFirstLive(w.owner);
    RunBuilds(v1, es1, []);
    RunBuilds(v, es0, es1);
  }

  lemma ThirdStarts(v: View, va: int) returns (w: View)
    requires FirstRuns(v) && Vacant(v.owner, 0) == 1 && InWindow(va) && va >= Base(USER_DATA) + TEMPLATE_BYTES
    ensures LegalRun(v, [Create(3, PARENT), Schedule(3)]) && w == After(v, [Create(3, PARENT), Schedule(3)])
    ensures Sane(w) && w.current == 3 && w.owner[3] == 1 && ByteAt(w, 1, va) == ByteAt(v, 1, va)
  {
    var es0, es1 := [Create(3, PARENT), Schedule(3)], [Schedule(3)];
    var v1 := Step(v, es0[0]);
    w := Step(v1, es1[0]);
    RunBuilds(v1, es1, []);
    RunBuilds(v, es0, es1);
  }

  /** A second process writes a byte behind the copy and exits; the process started next in its slot reads it. */
  lemma PredecessorRead(v: View, va: int, value: Byte)
    requires Booted(v) && InWindow(va) && va >= Base(USER_DATA) + TEMPLATE_BYTES
    ensures var es := [Create(1, PARENT), Schedule(1)] + [Create(2, PARENT), Schedule(2), Write(va, value)] +
        [Exit(2), Schedule(1)] + [Create(3, PARENT), Schedule(3)];
      LegalRun(v, es) && Legal(After(v, es), Read(va)) && Result(After(v, es), Read(va)) == value
  {
    var es0, es1 := [Create(1, PARENT), Schedule(1)], [Schedule(1)];
    var es2 := [Create(2, PARENT), Schedule(2), Write(va, value)];
    var es5, es7 := [Exit(2), Schedule(1)], [Create(3, PARENT), Schedule(3)];
    FirstStarts(v);
    var v1 := Step(v, es0[0]);
    RunBuilds(v1, es1, []);
    RunBuilds(v, es0, es1);
    var v5 := SecondWrites(Step(v1, es1[0]), va, value);
    var v7 := SecondExits(v5);
    var v9 := ThirdStarts(v7, va);
    RunsJoin(v, es0, es2);
    RunsJoin(v, es0 + es2, es5);
    RunsJoin(v, es0 + es2 + es5, es7);
  }
}
