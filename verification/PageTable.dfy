/** The first-level translation table: one section descriptor per megabyte, in the layout of
    section B3.5.1 of the ARM Architecture Reference Manual ARMv7-A and ARMv7-R (DDI 0406C). */
module PageTable {

  import opened Machine

  const L1_TABLE_SIZE := 4096
  // A section is 1 MB; the top 12 bits of a descriptor name it.
  const SECTION := 0x10_0000
  const L1_TABLE_ENTRY := 2

  const AP_ACTIVATE_FULL_ACCESS := 0x0C00
  const AP_ACTIVATE_SYS_ACCESS := 0x0400
  const AP_ACTIVATE_BOTH_READ_ONLY := 0x8C00

  const MAX_PROCESSES := 8
  const MAX_THREADS := 32
  const KERNEL_INIT := 1
  const KERNEL_TEXT := 2
  const KERNEL_RODATA := 3
  const USER_TEXT := 4
  const USER_RODATA := 5
  const USER_DATA := 6
  const USER_HEAP := 7
  const UART_TIMER := 0x3F0
  const UART_LED := 0x3F2
  const UART_PERI := 0x400

  /** The first address of section i. */
  function Base(i: int): int {
    i * 0x10_0000
  }

  // ----- Bitwise or on unsigned numbers -----

  function Or(a: nat, b: nat): nat
    decreases a + b
  {
    if a == 0 then b
    else if b == 0 then a
    else 2 * Or(a / 2, b / 2) + (if a % 2 == 1 || b % 2 == 1 then 1 else 0)
  }

  function Shl(h: nat, k: nat): nat {
    if k == 0 then h else 2 * Shl(h, k - 1)
  }

  lemma OrStep(q: nat, x: nat, y: nat)
    requires Or(q + x / 2, y / 2) == q + Or(x / 2, y / 2)
    ensures Or(2 * q + x, y) == 2 * q + Or(x, y)
  {
    assert (2 * q + x) / 2 == q + x / 2 && (2 * q + x) % 2 == x % 2;
  }

  /** Or with a number below 2^k leaves the bits from k on alone. */
  lemma {:induction false} OrBelow(h: nat, k: nat, x: nat, y: nat)
    requires x < Shl(1, k) && y < Shl(1, k)
    ensures Or(Shl(h, k) + x, y) == Shl(h, k) + Or(x, y)
  {
    if k > 0 {
      OrBelow(h, k - 1, x / 2, y / 2);
      OrStep(Shl(h, k - 1), x, y);
    }
  }

  lemma ShlDigit(h: nat, k: nat)
    ensures Shl(h, k + 4) == 16 * Shl(h, k)
  {
    assert Shl(h, k + 2) == 2 * Shl(h, k + 1);
    assert Shl(h, k + 3) == 2 * Shl(h, k + 2);
  }

  lemma ShlSection(h: nat)
    ensures Shl(h, 20) == Base(h)
  {
    ShlDigit(h, 0);
    ShlDigit(h, 4);
    ShlDigit(h, 8);
    ShlDigit(h, 12);
    ShlDigit(h, 16);
  }

  lemma OrDescriptor(h: nat, x: nat, y: nat)
    requires x < SECTION && y < SECTION
    ensures Or(Base(h) + x, y) == Base(h) + Or(x, y)
  {
    ShlSection(1);
    ShlSection(h);
    OrBelow(h, 20, x, y);
  }

  // ----- The table after initialisation -----

  /** The access permission bits of a region of the address space. */
  function RegionAp(i: int): int {
    if i == 0 then AP_ACTIVATE_FULL_ACCESS
    else if i <= KERNEL_RODATA then AP_ACTIVATE_SYS_ACCESS
    else if i == USER_DATA then AP_ACTIVATE_BOTH_READ_ONLY
    else if i < 24 + MAX_THREADS || i >= 128 then AP_ACTIVATE_FULL_ACCESS
    else 0
  }

  /** The identity mapping of section i, with its region's permissions. */
  function InitEntry(i: int): int {
    Base(i) + RegionAp(i) + L1_TABLE_ENTRY
  }

  /** entry & PHYSICAL_ADDRESS_BITS */
  function Physical(entry: Word): Word {
    entry - entry % SECTION
  }

  /** Sets bits in the descriptor of section i, whose low bits are known. */
  method OrEntry(l1: array<Word>, i: int, bits: int, ghost low: nat)
    requires l1.Length == L1_TABLE_SIZE && 0 <= i < L1_TABLE_SIZE
    requires l1[i] == Base(i) + low && low < 0x1_0000 && 0 <= bits < 0x1_0000 && Or(low, bits) < 0x1_0000
    modifies l1
    ensures forall j :: 0 <= j < L1_TABLE_SIZE ==> l1[j] == if j == i then Base(i) + Or(low, bits) else old(l1[j])
  {
    OrDescriptor(i, low, bits);
    l1[i] := Or(l1[i], bits);
  }

  lemma OrFull()
    ensures Or(2, 0xC00) == 0xC02 && Or(0xC02, 0xC00) == 0xC02
  {
    assert Or(0xC, 0xC) == 0xC;
    assert Or(0xC0, 0xC0) == 0xC0;
    assert Or(0, 0xC0) == 0xC0;
  }

  lemma OrOthers()
    ensures Or(2, 0x400) == 0x402 && Or(2, 0x8C00) == 0x8C02
  {
  }

  lemma OrTable()
    ensures Or(2, 0xC00) == 0xC02 && Or(0xC02, 0xC00) == 0xC02 && Or(2, 0x400) == 0x402 && Or(2, 0x8C00) == 0x8C02
  {
    OrFull();
    OrOthers();
  }

  method InitProcessSections(l1: array<Word>)
    requires l1.Length == L1_TABLE_SIZE
    requires forall i :: 8 <= i < 48 ==> l1[i] == Base(i) + L1_TABLE_ENTRY
    modifies l1
    ensures forall i :: 0 <= i < L1_TABLE_SIZE ==> l1[i] == if 8 <= i < 48 then InitEntry(i) else old(l1[i])
  {
    OrTable();
    for i := 8 to 8 + MAX_PROCESSES
      invariant forall j :: 0 <= j < L1_TABLE_SIZE ==> l1[j] == if 8 <= j < i then InitEntry(j) else old(l1[j])
    {
      OrEntry(l1, i, AP_ACTIVATE_FULL_ACCESS, L1_TABLE_ENTRY);
    }
    for i := 16 to 16 + MAX_THREADS
      invariant forall j :: 0 <= j < L1_TABLE_SIZE ==> l1[j] == if 8 <= j < i then InitEntry(j) else old(l1[j])
    {
      OrEntry(l1, i, AP_ACTIVATE_FULL_ACCESS, L1_TABLE_ENTRY);
    }
  }

  method InitHeapSections(l1: array<Word>)
    requires l1.Length == L1_TABLE_SIZE
    requires forall i :: 48 <= i < 56 ==> l1[i] == Base(i) + L1_TABLE_ENTRY
    modifies l1
    ensures forall i :: 0 <= i < L1_TABLE_SIZE ==> l1[i] == if 48 <= i < 56 then InitEntry(i) else old(l1[i])
  {
    OrTable();
    for i := 16 + MAX_THREADS to 24 + MAX_THREADS
      invariant forall j :: 0 <= j < L1_TABLE_SIZE ==> l1[j] == if 16 + MAX_THREADS <= j < i
        then InitEntry(j) else old(l1[j])
    {
      OrEntry(l1, i, AP_ACTIVATE_FULL_ACCESS, L1_TABLE_ENTRY);
    }
  }

  /** The entries that are given their permissions one by one. */
  predicate SetSingly(i: int) {
    i < 8 || i == UART_TIMER || i == UART_LED || i == UART_PERI
  }

  method KernelSections(l1: array<Word>)
    requires l1.Length == L1_TABLE_SIZE && forall i :: 0 <= i < 4 ==> l1[i] == Base(i) + L1_TABLE_ENTRY
    modifies l1
    ensures forall i :: 0 <= i < L1_TABLE_SIZE ==> l1[i] == if i < 4 then InitEntry(i) else old(l1[i])
  {
    OrTable();
    OrEntry(l1, 0, AP_ACTIVATE_FULL_ACCESS, L1_TABLE_ENTRY);
    OrEntry(l1, KERNEL_INIT, AP_ACTIVATE_SYS_ACCESS, L1_TABLE_ENTRY);
    OrEntry(l1, KERNEL_TEXT, AP_ACTIVATE_SYS_ACCESS, L1_TABLE_ENTRY);
    OrEntry(l1, KERNEL_RODATA, AP_ACTIVATE_SYS_ACCESS, L1_TABLE_ENTRY);
  }

  method UserSections(l1: array<Word>)
    requires l1.Length == L1_TABLE_SIZE && forall i :: 4 <= i < 8 ==> l1[i] == Base(i) + L1_TABLE_ENTRY
    modifies l1
    ensures forall i :: 0 <= i < L1_TABLE_SIZE ==> l1[i] == if 4 <= i < 8 then InitEntry(i) else old(l1[i])
  {
    OrTable();
    OrEntry(l1, USER_TEXT, AP_ACTIVATE_FULL_ACCESS, L1_TABLE_ENTRY);
    OrEntry(l1, USER_RODATA, AP_ACTIVATE_FULL_ACCESS, L1_TABLE_ENTRY);
    OrEntry(l1, USER_DATA, AP_ACTIVATE_BOTH_READ_ONLY, L1_TABLE_ENTRY);
    OrEntry(l1, USER_HEAP, AP_ACTIVATE_FULL_ACCESS, L1_TABLE_ENTRY);
  }

  lemma OrPeripheral()
    ensures Or(0, 0xC00) == 0xC00 && Or(0xC00, 2) == 0xC02
  {
  }

  lemma PeripheralEntry(i: nat)
    requires 0x3F0 <= i <= 0x400
    ensures Or(Or(Base(i), AP_ACTIVATE_FULL_ACCESS), L1_TABLE_ENTRY) == InitEntry(i)
  {
    OrPeripheral();
    OrDescriptor(i, 0, AP_ACTIVATE_FULL_ACCESS);
    OrDescriptor(i, AP_ACTIVATE_FULL_ACCESS, L1_TABLE_ENTRY);
  }

  method SetPeripheral(l1: array<Word>, i: int, base: Word)
    requires l1.Length == L1_TABLE_SIZE && 0x3F0 <= i <= 0x400 && base == Base(i)
    modifies l1
    ensures forall j :: 0 <= j < L1_TABLE_SIZE ==> l1[j] == if j == i then InitEntry(i) else old(l1[j])
  {
    PeripheralEntry(i);
    l1[i] := Or(Or(base, AP_ACTIVATE_FULL_ACCESS), L1_TABLE_ENTRY);
  }

  method Peripherals(l1: array<Word>)
    requires l1.Length == L1_TABLE_SIZE
    modifies l1
    ensures forall i :: 0 <= i < L1_TABLE_SIZE ==>
      l1[i] == if i == UART_TIMER || i == UART_LED || i == UART_PERI then InitEntry(i) else old(l1[i])
  {
    SetPeripheral(l1, UART_TIMER, 0x3F00_0000);
    SetPeripheral(l1, UART_LED, 0x3F20_0000);
    SetPeripheral(l1, UART_PERI, 0x4000_0000);
  }

  /** All sections mapped to themselves, with no access. */
  method NoAccess(l1: array<Word>)
    requires l1.Length == L1_TABLE_SIZE
    modifies l1
    ensures forall i :: 0 <= i < L1_TABLE_SIZE ==> l1[i] == Base(i) + L1_TABLE_ENTRY
  {
    for i := 0 to L1_TABLE_SIZE
      invariant forall j :: 0 <= j < i ==> l1[j] == Base(j) + L1_TABLE_ENTRY
    {
      OrDescriptor(i, 0, L1_TABLE_ENTRY);
      l1[i] := Or(Base(i), L1_TABLE_ENTRY);
    }
  }

  /** Sections 128 and up get full access; the peripherals among them have it. */
  method OpenUpper(l1: array<Word>)
    requires l1.Length == L1_TABLE_SIZE
    requires forall i :: 128 <= i < L1_TABLE_SIZE ==>
      l1[i] == if SetSingly(i) then InitEntry(i) else Base(i) + L1_TABLE_ENTRY
    modifies l1
    ensures forall i :: 0 <= i < L1_TABLE_SIZE ==> l1[i] == if 128 <= i then InitEntry(i) else old(l1[i])
  {
    OrTable();
    for i := 128 to L1_TABLE_SIZE
      invariant forall j :: 0 <= j < L1_TABLE_SIZE ==> l1[j] == if 128 <= j < i then InitEntry(j) else old(l1[j])
    {
      OrEntry(l1, i, AP_ACTIVATE_FULL_ACCESS, if SetSingly(i) then 0xC02 else L1_TABLE_ENTRY);
    }
  }

  /** Every section is mapped to itself, the peripherals included; the template is the user data section. */
  method L1TableInit(l1: array<Word>) returns (template: Word)
    requires l1.Length == L1_TABLE_SIZE
    modifies l1
    ensures forall i :: 0 <= i < L1_TABLE_SIZE ==> l1[i] == InitEntry(i)
    ensures template == InitEntry(USER_DATA) == 0x60_8C02
    ensures forall i :: 0 <= i < 4096 ==>
      && SectionDescriptor(l1[i])
      && l1[i] == 0x10_0000 * i +
        (if i == 6 then 0x8C02 else if 1 <= i < 4 then 0x402 else if 56 <= i < 128 then 2 else 0xC02)
  {
    NoAccess(l1);
    KernelSections(l1);
    Peripherals(l1);
    UserSections(l1);
    template := l1[USER_DATA];
    OpenUpper(l1);
    InitProcessSections(l1);
    InitHeapSections(l1);
    forall i | 0 <= i < 4096
      ensures SectionDescriptor(InitEntry(i)) && InitEntry(i) == 0x10_0000 * i +
        (if i == 6 then 0x8C02 else if 1 <= i < 4 then 0x402 else if 56 <= i < 128 then 2 else 0xC02)
    {
      EntryDescribes(i);
    }
  }

  // ----- What a descriptor says -----

  /** A section whose code may be run: type 2, no execute-never bit; domain, memory type and attribute bits are zero. */
  predicate SectionDescriptor(entry: Word) {
    entry % 0x400 == 2 && entry / 0x1000 % 8 == 0 && entry / 0x1_0000 % 16 == 0
  }

  lemma EntryDescribes(i: nat)
    requires i < 4096
    ensures SectionDescriptor(InitEntry(i)) && InitEntry(i) / 0x10_0000 == i
    ensures InitEntry(i) == 0x10_0000 * i +
      (if i == 6 then 0x8C02 else if 1 <= i < 4 then 0x402 else if 56 <= i < 128 then 2 else 0xC02)
  {
    var x := RegionAp(i) + L1_TABLE_ENTRY;
    assert x == 2 || x == 0x402 || x == 0xC02 || x == 0x8C02;
    assert InitEntry(i) == Base(i) + x;
    Quotient(i, x, SECTION);
    Quotient(1024 * i + x / 0x400, x % 0x400, 0x400);
    Quotient(256 * i + x / 0x1000, x % 0x1000, 0x1000);
    Quotient(16 * i, x, 0x1_0000);
    Quotient(32 * i + x / 0x8000, x / 0x1000 % 8, 8);
    Quotient(i, 0, 16);
  }

  // ----- Permissions by name -----

  /** AP[2:0], from bits 15, 11 and 10. */
  function AccessBits(entry: Word): int {
    (entry / 0x8000) % 2 * 4 + (entry / 0x400) % 4
  }

  function NameOf(ap: int): string {
    match ap
    case 0 => "AP_NO_ACCESS"
    case 1 => "AP_SYS_ACCESS"
    case 5 => "AP_SYS_READ_ONLY"
    case 7 => "AP_BOTH_READ_ONLY"
    case 2 => "AP_READ_ONLY"
    case 3 => "AP_FULL_ACCESS"
    case _ => "UNKNOWN"
  }

  function TranslateAP(entry: Word): string {
    NameOf(AccessBits(entry))
  }

  /** The name of every combination of the three permission bits. */
  lemma PermissionNames(bit15: int, bit11: int, bit10: int)
    requires 0 <= bit15 < 2 && 0 <= bit11 < 2 && 0 <= bit10 < 2
    ensures TranslateAP(0x8000 * bit15 + 0x800 * bit11 + 0x400 * bit10 + 2) ==
      if bit15 == 0 then
        if bit11 == 0 then (if bit10 == 0 then "AP_NO_ACCESS" else "AP_SYS_ACCESS")
        else (if bit10 == 0 then "AP_READ_ONLY" else "AP_FULL_ACCESS")
      else if bit10 == 0 then "UNKNOWN"
      else (if bit11 == 0 then "AP_SYS_READ_ONLY" else "AP_BOTH_READ_ONLY")
  {
  }

  lemma Quotient(q: int, r: int, d: int)
    requires 0 <= r < d
    requires (d == 2 || d == 4 || d == 8 || d == 16 || d == 0x400 || d == 0x1000 || d == 0x8000 ||
      d == 0x1_0000 || d == 0x10_0000)
    ensures (d * q + r) / d == q && (d * q + r) % d == r
  {
  }

  lemma QuotientSplits(i: nat, q: nat)
    ensures (32 * i + q) % 2 == q % 2 && (1024 * i + q) % 4 == q % 4
  {
    Quotient(16 * i + q / 2, q % 2, 2);
    Quotient(256 * i + q / 4, q % 4, 4);
  }

  /** The low bits of a descriptor hold its permissions, the high ones its section. */
  lemma EntrySplits(i: nat, x: nat)
    requires i < L1_TABLE_SIZE && x < 0x1_0000
    ensures Physical(Base(i) + x) == Base(i) && AccessBits(Base(i) + x) == AccessBits(x)
  {
    var high, low := x / 0x8000, x / 0x400;
    Quotient(i, x, SECTION);
    Quotient(32 * i + high, x % 0x8000, 0x8000);
    Quotient(1024 * i + low, x % 0x400, 0x400);
    QuotientSplits(i, high);
    QuotientSplits(i, low);
    assert Base(i) + x == 0x8000 * (32 * i + high) + x % 0x8000 == 0x400 * (1024 * i + low) + x % 0x400;
  }

  lemma RegionBits(i: nat)
    requires i < L1_TABLE_SIZE
    ensures AccessBits(InitEntry(i)) == if 1 <= i <= 3 then 1 else if i == 6 then 7 else if 56 <= i < 128 then 0 else 3
    ensures Physical(InitEntry(i)) == Base(i)
  {
    var x := RegionAp(i) + L1_TABLE_ENTRY;
    EntrySplits(i, x);
    assert InitEntry(i) == Base(i) + x;
    assert AccessBits(2) == 0 && AccessBits(0x402) == 1 && AccessBits(0xC02) == 3 && AccessBits(0x8C02) == 7;
  }

  /** Kernel code and data are closed to users; sections 56..127 are closed to everyone; the user data template is
      read-only. */
  lemma RegionNames(i: int)
    requires 0 <= i < L1_TABLE_SIZE
    ensures TranslateAP(InitEntry(i)) ==
      if 1 <= i <= 3 then "AP_SYS_ACCESS"
      else if i == 6 then "AP_BOTH_READ_ONLY"
      else if 56 <= i < 128 then "AP_NO_ACCESS"
      else "AP_FULL_ACCESS"
    ensures Physical(InitEntry(i)) == 0x10_0000 * i
  {
    RegionBits(i);
  }
}
