/**
 Virtual memory of the simulated machine: translation through a page table or a TLB, and reads and
 writes of one, two or four bytes, on a little-endian host whose plain char is signed.
 */
module Translation {
  import opened Bytes

  const PAGE_SIZE: nat := 128
  const NUM_PHYS_PAGES: nat := 32
  const MEMORY_SIZE: nat := 4096
  const TLB_SIZE: nat := 4

  datatype ExceptionType =
    NoException | PageFaultException | ReadOnlyException | BusErrorException | AddressErrorException

  datatype TranslationEntry =
    TranslationEntry(virtualPage: Int32, physicalPage: Int32, valid: bool, readOnly: bool, use: bool, dirty: bool)

  /** What translates: a page table indexed by page number, or a TLB to be searched. */
  datatype Mapping = PageTable(entries: seq<TranslationEntry>) | Tlb(entries: seq<TranslationEntry>)

  /** The sizes of an access. */
  type Size = n: nat | n == 1 || n == 2 || n == 4 witness 1

  datatype Lookup = Found(index: nat) | Failed(exception: ExceptionType)

  /** The first valid entry for a page from index i on, or the number of entries. */
  function SearchFrom(entries: seq<TranslationEntry>, vpn: nat, i: nat): (k: nat)
    requires i <= |entries|
    ensures i <= k <= |entries|
    ensures k < |entries| ==> entries[k].valid && Unsigned(entries[k].virtualPage) == vpn
    ensures forall j | i <= j < k :: !(entries[j].valid && Unsigned(entries[j].virtualPage) == vpn)
    decreases |entries| - i
  {
    if i == |entries| || (entries[i].valid && Unsigned(entries[i].virtualPage) == vpn) then i
    else SearchFrom(entries, vpn, i + 1)
  }

  function LookUp(m: Mapping, vpn: nat): Lookup {
    match m
    case PageTable(entries) =>
      if vpn >= |entries| then Failed(AddressErrorException)
      else if !entries[vpn].valid then Failed(PageFaultException)
      else Found(vpn)
    case Tlb(entries) =>
      var k := SearchFrom(entries, vpn, 0);
      if k == |entries| then Failed(PageFaultException) else Found(k)
  }

  predicate Aligned(virtAddr: Int32, size: Size) {
    !((size == 4 && Unsigned(virtAddr) % 4 != 0) || (size == 2 && Unsigned(virtAddr) % 2 != 0))
  }

  /** The entry that translates an access, or the exception it raises; the checks are made in this order. */
  function Resolve(m: Mapping, virtAddr: Int32, size: Size, writing: bool): (r: Lookup)
    ensures r.Found? ==> r.index < |m.entries| && Unsigned(m.entries[r.index].physicalPage) < NUM_PHYS_PAGES
  {
    if !Aligned(virtAddr, size) then Failed(AddressErrorException)
    else
      match LookUp(m, Unsigned(virtAddr) / PAGE_SIZE)
      case Failed(e) => Failed(e)
      case Found(k) =>
        if m.entries[k].readOnly && writing then Failed(ReadOnlyException)
        else if Unsigned(m.entries[k].physicalPage) >= NUM_PHYS_PAGES then Failed(BusErrorException)
        else Found(k)
  }

  /** Entry k maps a page: in a page table it is the one at that index, in a TLB it carries the page's number. */
  predicate Maps(m: Mapping, vpn: nat, k: nat) {
    && k < |m.entries| && m.entries[k].valid
    && if m.PageTable? then k == vpn else Unsigned(m.entries[k].virtualPage) == vpn
  }

  /** Entry k is the first to map the page, and so the one that is used. */
  ghost predicate Used(m: Mapping, vpn: nat, k: nat) {
    Maps(m, vpn, k) && forall j: nat | j < k :: !Maps(m, vpn, j)
  }

  lemma LookUpMeans(m: Mapping, vpn: nat)
    ensures LookUp(m, vpn) == Failed(AddressErrorException) <==> m.PageTable? && vpn >= |m.entries|
    ensures LookUp(m, vpn) == Failed(PageFaultException)
      <==> !(m.PageTable? && vpn >= |m.entries|) && forall k: nat :: !Maps(m, vpn, k)
    ensures forall k: nat :: LookUp(m, vpn) == Found(k) <==> Used(m, vpn, k)
  {
    if LookUp(m, vpn).Found? {
      assert Maps(m, vpn, LookUp(m, vpn).index);
    }
  }

  /**
   Which exception an access raises: alignment and the table's size come first, then the lack of a
   mapping, then a write to a read-only page, then a frame that does not exist; and which entry is
   used when there is none.
   */
  lemma ExceptionMeans(m: Mapping, virtAddr: Int32, size: Size, writing: bool)
    ensures var r, vpn := Resolve(m, virtAddr, size, writing), Unsigned(virtAddr) / 128;
      var legal := Unsigned(virtAddr) % size == 0 && !(m.PageTable? && vpn >= |m.entries|);
      && (r == Failed(AddressErrorException) <==> !legal)
      && (r == Failed(PageFaultException) <==> legal && forall k: nat :: !Maps(m, vpn, k))
      && (r == Failed(ReadOnlyException)
          <==> legal && writing && exists k: nat :: Used(m, vpn, k) && m.entries[k].readOnly)
      && (r == Failed(BusErrorException)
          <==> legal && exists k: nat ::
            Used(m, vpn, k) && !(writing && m.entries[k].readOnly) && Unsigned(m.entries[k].physicalPage) >= 32)
      && (forall k: nat :: r == Found(k)
            <==> legal && Used(m, vpn, k) && !(writing && m.entries[k].readOnly)
                 && Unsigned(m.entries[k].physicalPage) < 32)
  {
    LookUpMeans(m, Unsigned(virtAddr) / PAGE_SIZE);
    if LookUp(m, Unsigned(virtAddr) / PAGE_SIZE).Found? {
      var k := LookUp(m, Unsigned(virtAddr) / PAGE_SIZE).index;
      assert Used(m, Unsigned(virtAddr) / PAGE_SIZE, k);
    }
  }

  function Frame(m: Mapping, k: nat): nat
    requires k < |m.entries|
  {
    Unsigned(m.entries[k].physicalPage)
  }

  function Physical(m: Mapping, virtAddr: Int32, k: nat): nat
    requires k < |m.entries|
  {
    Frame(m, k) * PAGE_SIZE + Unsigned(virtAddr) % PAGE_SIZE
  }

  /** Two mappings that differ in use and dirty bits only. */
  ghost predicate SameTranslations(m: Mapping, n: Mapping) {
    && (m.PageTable? <==> n.PageTable?) && |m.entries| == |n.entries|
    && forall k | 0 <= k < |m.entries| ::
         n.entries[k] == m.entries[k].(use := n.entries[k].use, dirty := n.entries[k].dirty)
  }

  lemma {:induction false} SearchSame(m: Mapping, n: Mapping, vpn: nat, i: nat)
    requires SameTranslations(m, n) && i <= |m.entries|
    ensures SearchFrom(m.entries, vpn, i) == SearchFrom(n.entries, vpn, i)
    decreases |m.entries| - i
  {
    if i < |m.entries| { SearchSame(m, n, vpn, i + 1); }
  }

  lemma LookUpSame(m: Mapping, n: Mapping, vpn: nat)
    requires SameTranslations(m, n)
    ensures LookUp(m, vpn) == LookUp(n, vpn)
  {
    if m.Tlb? { SearchSame(m, n, vpn, 0); }
  }

  lemma ResolveSame(m: Mapping, n: Mapping, virtAddr: Int32, size: Size, writing: bool)
    requires SameTranslations(m, n)
    ensures Resolve(m, virtAddr, size, writing) == Resolve(n, virtAddr, size, writing)
    ensures forall k | 0 <= k < |m.entries| :: Physical(m, virtAddr, k) == Physical(n, virtAddr, k)
  {
    LookUpSame(m, n, Unsigned(virtAddr) / PAGE_SIZE);
  }

  /** An aligned access does not cross a page, so what is accessed lies in memory: the range assertion always holds. */
  lemma AccessInOnePage(m: Mapping, virtAddr: Int32, size: Size, writing: bool)
    requires Resolve(m, virtAddr, size, writing).Found?
    ensures Unsigned(virtAddr) % PAGE_SIZE + size <= PAGE_SIZE
    ensures Physical(m, virtAddr, Resolve(m, virtAddr, size, writing).index) + size <= MEMORY_SIZE
  {
    var u := Unsigned(virtAddr);
    if size == 2 {
      EvenOffset(u);
    } else if size == 4 {
      FourfoldOffset(u);
    }
  }

  lemma EvenOffset(u: Word)
    requires u % 2 == 0
    ensures u % PAGE_SIZE + 2 <= PAGE_SIZE
  {
  }

  lemma FourfoldOffset(u: Word)
    requires u % 4 == 0
    ensures u % PAGE_SIZE + 4 <= PAGE_SIZE
  {
  }

  /*** Contents ***/

  type Memory = m: seq<Byte> | |m| == MEMORY_SIZE witness seq(MEMORY_SIZE, _ => 0)

  /** The bytes of a stored value, lowest first. */
  function ValueBytes(value: Int32, size: Size): (b: seq<Byte>)
    ensures |b| == size
  {
    IntBytes(value)[..size]
  }

  /** What is loaded from some bytes: one is sign-extended, two are zero-extended. */
  function BytesValue(b: seq<Byte>): Int32
    requires |b| == 1 || |b| == 2 || |b| == 4
  {
    if |b| == 1 then (if b[0] < 128 then b[0] else b[0] - 256)
    else if |b| == 2 then b[0] + 256 * b[1]
    else BytesInt(b)
  }

  /** A value stored in so many bytes and loaded again. */
  function Truncated(value: Int32, size: Size): Int32 {
    if size == 1 then (if value % 256 < 128 then value % 256 else value % 256 - 256)
    else if size == 2 then value % 0x1_0000
    else value
  }

  lemma LowBytes(value: Int32)
    ensures IntBytes(value)[0] == value % 256
    ensures IntBytes(value)[0] as int + 256 * IntBytes(value)[1] as int == value % 0x1_0000
  {
    var u := value % 0x1_0000_0000;
    assert IntBytes(value)[0] == u % 256 && IntBytes(value)[1] == (u / 256) % 256;
    SixteenBits(u);
    LowRemainders(value);
  }

  lemma LowRemainders(value: int)
    ensures (value % 0x1_0000_0000) % 0x1_0000 == value % 0x1_0000
    ensures (value % 0x1_0000_0000) % 256 == value % 256
  {
    var q, u := value / 0x1_0000_0000, value % 0x1_0000_0000;
    Remainder16(value, 0x1_0000 * q + u / 0x1_0000, u % 0x1_0000);
    Remainder8(value, 0x100_0000 * q + u / 256, u % 256);
  }

  lemma Remainder16(x: int, k: int, r: nat)
    requires x == 0x1_0000 * k + r && r < 0x1_0000
    ensures x % 0x1_0000 == r
  {
  }

  lemma Remainder8(x: int, k: int, r: nat)
    requires x == 256 * k + r && r < 256
    ensures x % 256 == r
  {
  }

  lemma SixteenBits(u: Word)
    ensures u % 256 + 256 * ((u / 256) % 256) == u % 0x1_0000
  {
    var v := u / 256;
    var w := v / 256;
    assert u == 256 * v + u % 256 && v == 256 * w + v % 256;
    assert u == 0x1_0000 * w + (256 * (v % 256) + u % 256);
  }

  lemma ValueRoundTrip(value: Int32, size: Size)
    ensures BytesValue(ValueBytes(value, size)) == Truncated(value, size)
  {
    if size == 4 {
      assert ValueBytes(value, size) == IntBytes(value);
      IntRoundTrip(value);
    } else {
      LowBytes(value);
    }
  }

  datatype Result<T> = Ok(value: T) | Raised(exception: ExceptionType)

  function Replaced(mem: Memory, at: nat, b: seq<Byte>): Memory
    requires at + |b| <= MEMORY_SIZE
  {
    mem[..at] + b + mem[at + |b|..]
  }

  ghost function Load(m: Mapping, mem: Memory, virtAddr: Int32, size: Size): Result<Int32> {
    match Resolve(m, virtAddr, size, false)
    case Failed(e) => Raised(e)
    case Found(k) =>
      AccessInOnePage(m, virtAddr, size, false);
      var p := Physical(m, virtAddr, k);
      Ok(BytesValue(mem[p..p + size]))
  }

  ghost function Store(m: Mapping, mem: Memory, virtAddr: Int32, size: Size, value: Int32): Result<Memory> {
    match Resolve(m, virtAddr, size, true)
    case Failed(e) => Raised(e)
    case Found(k) =>
      AccessInOnePage(m, virtAddr, size, true);
      Ok(Replaced(mem, Physical(m, virtAddr, k), ValueBytes(value, size)))
  }

  /** A write puts the low bytes of the value, lowest first, at the frame's address plus the offset in the page. */
  lemma StoreMeans(m: Mapping, mem: Memory, virtAddr: Int32, size: Size, value: Int32)
    requires Store(m, mem, virtAddr, size, value).Ok?
    ensures
      var frame := m.entries[Resolve(m, virtAddr, size, true).index].physicalPage;
      var p, after := Unsigned(frame) * 128 + Unsigned(virtAddr) % 128, Store(m, mem, virtAddr, size, value).value;
      && p + size <= 4096 && after[..p] == mem[..p] && after[p + size..] == mem[p + size..]
      && (size == 1 ==> after[p] == value % 0x100)
      && (size == 2 ==> after[p] as int + 0x100 * after[p + 1] as int == value % 0x1_0000)
      && (size == 4 ==> after[p] as int + 0x100 * after[p + 1] as int + 0x1_0000 * after[p + 2] as int
                        + 0x100_0000 * after[p + 3] as int == Unsigned(value))
  {
    AccessInOnePage(m, virtAddr, size, true);
    LowBytes(value);
    IntMeans(value);
    LowByteFirst(Unsigned(value));
  }

  /** What can be written can be read, at the same place. */
  lemma WritableIsReadable(m: Mapping, virtAddr: Int32, size: Size)
    requires Resolve(m, virtAddr, size, true).Found?
    ensures Resolve(m, virtAddr, size, false) == Resolve(m, virtAddr, size, true)
  {
  }

  /** A read after a write of the same size and place returns the value stored, as far as it fits the size. */
  lemma LoadStored(m: Mapping, n: Mapping, mem: Memory, virtAddr: Int32, size: Size, value: Int32)
    requires SameTranslations(m, n) && Store(m, mem, virtAddr, size, value).Ok?
    ensures Load(n, Store(m, mem, virtAddr, size, value).value, virtAddr, size) == Ok(Truncated(value, size))
  {
    WritableIsReadable(m, virtAddr, size);
    ResolveSame(m, n, virtAddr, size, false);
    AccessInOnePage(m, virtAddr, size, true);
    var p := Physical(m, virtAddr, Resolve(m, virtAddr, size, true).index);
    var mem' := Store(m, mem, virtAddr, size, value).value;
    assert mem'[p..p + size] == ValueBytes(value, size);
    ValueRoundTrip(value, size);
  }

  /** Different pages are translated to different frames. */
  ghost predicate DistinctFrames(m: Mapping) {
    forall v, w | LookUp(m, v).Found? && LookUp(m, w).Found? && v != w ::
      Frame(m, LookUp(m, v).index) != Frame(m, LookUp(m, w).index)
  }

  /** With distinct frames, a write leaves every read of bytes it does not overlap as it was. */
  lemma LoadElsewhere(m: Mapping, n: Mapping, mem: Memory, a: Int32, size: Size, value: Int32, b: Int32, other: Size)
    requires SameTranslations(m, n) && Store(m, mem, a, size, value).Ok? && DistinctFrames(m)
    requires Unsigned(a) + size <= Unsigned(b) || Unsigned(b) + other <= Unsigned(a)
    ensures Load(n, Store(m, mem, a, size, value).value, b, other) == Load(m, mem, b, other)
  {
    hide DistinctFrames, SameTranslations, Replaced, BytesValue, ValueBytes, Unsigned, Aligned;
    ResolveSame(m, n, b, other, false);
    AccessInOnePage(m, a, size, true);
    if Resolve(m, b, other, false).Found? {
      AccessInOnePage(m, b, other, false);
      var p := Physical(m, a, Resolve(m, a, size, true).index);
      var q := Physical(m, b, Resolve(m, b, other, false).index);
      Apart(m, a, size, b, other);
      hide Resolve, Physical;
      ReplacedElsewhere(mem, p, ValueBytes(value, size), q, other);
    }
  }

  lemma ReplacedElsewhere(mem: Memory, at: nat, b: seq<Byte>, from: nat, n: nat)
    requires at + |b| <= MEMORY_SIZE && from + n <= MEMORY_SIZE
    requires at + |b| <= from || from + n <= at
    ensures Replaced(mem, at, b)[from..from + n] == mem[from..from + n]
  {
  }

  /** Accesses that do not overlap in virtual memory do not overlap in physical memory. */
  lemma Apart(m: Mapping, a: Int32, size: Size, b: Int32, other: Size)
    requires DistinctFrames(m) && Resolve(m, a, size, true).Found? && Resolve(m, b, other, false).Found?
    requires Unsigned(a) + size <= Unsigned(b) || Unsigned(b) + other <= Unsigned(a)
    ensures var p := Physical(m, a, Resolve(m, a, size, true).index);
      var q := Physical(m, b, Resolve(m, b, other, false).index);
      p + size <= q || q + other <= p
  {
    AccessInOnePage(m, a, size, true);
    AccessInOnePage(m, b, other, false);
    var v, w := Unsigned(a) / PAGE_SIZE, Unsigned(b) / PAGE_SIZE;
    if v != w {
      var f, g := Frame(m, LookUp(m, v).index), Frame(m, LookUp(m, w).index);
      assert f != g;
    }
  }

  /** Every valid TLB entry is a copy of a valid entry of the page table, as far as translation goes. */
  ghost predicate Copies(tlb: Mapping, table: Mapping)
    requires tlb.Tlb? && table.PageTable?
  {
    forall i | 0 <= i < |tlb.entries| && tlb.entries[i].valid ::
      var v := Unsigned(tlb.entries[i].virtualPage);
      && v < |table.entries| && table.entries[v].valid
      && tlb.entries[i].physicalPage == table.entries[v].physicalPage
      && tlb.entries[i].readOnly == table.entries[v].readOnly
  }

  /** A TLB of copies, whenever it does not miss, gives what the page table gives: address or exception. */
  lemma TlbAgrees(tlb: Mapping, table: Mapping, virtAddr: Int32, size: Size, writing: bool)
    requires tlb.Tlb? && table.PageTable? && Copies(tlb, table)
    requires Resolve(tlb, virtAddr, size, writing) != Failed(PageFaultException)
    ensures var r, s := Resolve(tlb, virtAddr, size, writing), Resolve(table, virtAddr, size, writing);
      if r.Found? then s.Found? && Physical(tlb, virtAddr, r.index) == Physical(table, virtAddr, s.index)
      else r == s
  {
  }

  class Machine {
    const mainMemory: array<Byte>
    const tlb: array?<TranslationEntry>
    const pageTable: array?<TranslationEntry>

    /** There is a TLB or a page table, but not both. */
    ghost predicate Valid() {
      && mainMemory.Length == MEMORY_SIZE
      && (tlb == null || pageTable == null) && (tlb != null || pageTable != null)
      && (tlb != null ==> tlb.Length == TLB_SIZE)
    }

    ghost function Tables(): set<object> {
      (if tlb == null then {} else {tlb}) + (if pageTable == null then {} else {pageTable})
    }

    ghost function Current(): Mapping
      requires Valid()
      reads Tables()
    {
      if tlb == null then PageTable(pageTable[..]) else Tlb(tlb[..])
    }

    constructor (tlb: array?<TranslationEntry>, pageTable: array?<TranslationEntry>)
      requires (tlb == null || pageTable == null) && (tlb != null || pageTable != null)
      requires tlb != null ==> tlb.Length == TLB_SIZE
      ensures Valid() && fresh(mainMemory) && this.tlb == tlb && this.pageTable == pageTable
    {
      this.tlb, this.pageTable := tlb, pageTable;
      mainMemory := new Byte[MEMORY_SIZE](_ => 0);
    }

    method SearchTlb(vpn: nat) returns (i: nat)
      requires tlb != null
      ensures i == SearchFrom(tlb[..], vpn, 0)
    {
      i := 0;
      while i < tlb.Length
        invariant i <= tlb.Length && SearchFrom(tlb[..], vpn, 0) == SearchFrom(tlb[..], vpn, i)
      {
        if tlb[i].valid && Unsigned(tlb[i].virtualPage) == vpn { return; }
        i := i + 1;
      }
    }

    method Translate(virtAddr: Int32, size: Size, writing: bool) returns (exception: ExceptionType, physAddr: nat)
      requires Valid()
      modifies Tables()
      ensures match Resolve(old(Current()), virtAddr, size, writing)
        case Failed(e) => exception == e != NoException && Current() == old(Current())
        case Found(k) =>
          var e := old(Current().entries)[k];
          && exception == NoException
          && physAddr == Unsigned(e.physicalPage) * 128 + Unsigned(virtAddr) % 128 && physAddr + size <= 4096
          && Current().entries == old(Current().entries)[k := e.(use := true, dirty := e.dirty || writing)]
    {
      physAddr := 0;
      ghost var m := Current();
      if !Aligned(virtAddr, size) { return AddressErrorException, 0; }
      var vpn, offset := Unsigned(virtAddr) / PAGE_SIZE, Unsigned(virtAddr) % PAGE_SIZE;
      var entries, k;
      if tlb == null {
        entries, k := pageTable, vpn;
        if vpn >= pageTable.Length { return AddressErrorException, 0; }
        if !pageTable[vpn].valid { return PageFaultException, 0; }
      } else {
        entries := tlb;
        k := SearchTlb(vpn);
        if k == tlb.Length { return PageFaultException, 0; }
      }
      if entries[k].readOnly && writing { return ReadOnlyException, 0; }
      var pageFrame := Unsigned(entries[k].physicalPage);
      if pageFrame >= NUM_PHYS_PAGES { return BusErrorException, 0; }
      AccessInOnePage(m, virtAddr, size, writing);
      entries[k] := entries[k].(use := true, dirty := entries[k].dirty || writing);
      physAddr := pageFrame * PAGE_SIZE + offset;
      exception := NoException;
    }

    /** Returns the value read, or the exception to be raised. */
    method ReadMem(addr: Int32, size: Size) returns (r: Result<Int32>)
      requires Valid()
      modifies Tables()
      ensures r == Load(old(Current()), old(mainMemory[..]), addr, size)
      ensures SameTranslations(old(Current()), Current())
    {
      var exception, p := Translate(addr, size, false);
      if exception != NoException { return Raised(exception); }
      r := Ok(BytesValue(mainMemory[p..p + size]));
    }

    method WriteMem(addr: Int32, size: Size, value: Int32) returns (r: ExceptionType)
      requires Valid()
      modifies Tables(), mainMemory
      ensures match Store(old(Current()), old(mainMemory[..]), addr, size, value)
        case Raised(e) => r == e && mainMemory[..] == old(mainMemory[..])
        case Ok(mem) => r == NoException && mainMemory[..] == mem
      ensures SameTranslations(old(Current()), Current())
    {
      hide Resolve, BytesValue, LookUp, IntBytes, Unsigned;
      var p;
      r, p := Translate(addr, size, true);
      if r != NoException { return; }
      var bytes := ValueBytes(value, size);
      forall i | 0 <= i < size {
        mainMemory[p + i] := bytes[i];
      }
    }
  }
}
