/** Optional values, used for the nullable pointers the heap returns. */
module Wrappers {
  datatype Option<+T> = None | Some(value: T)
}

/**
 * Addresses, allocation spaces, pages and the generation-membership queries
 * the heap answers from a page's flags.
 *
 * Layout constants are those of a 64-bit build: 512 KB pages
 * (kPageSizeBits = 19), 8-byte pointers, 32-bit small integers.
 */
module HeapTypes {

  const kPageSizeBits: nat := 19
  /** 1 << kPageSizeBits */
  const PageSize: nat := 0x8_0000
  const kPointerSize: nat := 8
  /** Objects larger than this never go to a regular page. */
  const kMaxRegularHeapObjectSize: nat := 507136
  /** Smi::kMaxValue with 32-bit small integers. */
  const SmiMaxValue: int := 0x7FFF_FFFF
  const TwoTo32: int := 0x1_0000_0000

  type Address = nat
  type u32 = x: int | 0 <= x < TwoTo32
  /** The range of a C++ `int`. */
  type i32 = x: int | -0x8000_0000 <= x < 0x8000_0000

  /** C++'s unsigned wrap-around of a 32-bit counter. */
  function Wrap32(x: nat): (r: u32)
    ensures x < TwoTo32 ==> r == x
  {
    x % TwoTo32
  }

  /** The usual arithmetic conversion of an `int` to `uint32_t`. */
  function AsUint32(x: i32): (r: u32)
    ensures r % TwoTo32 == x % TwoTo32
  {
    if x >= 0 then x else x + TwoTo32
  }

  /** The runtime flags the core reads. */
  datatype Flags = Flags(
    verifyPredictable: bool,              // FLAG_verify_predictable
    dumpAllocationsDigestAtAlloc: i32,    // FLAG_dump_allocations_digest_at_alloc
    traceAllocationStackInterval: i32,    // FLAG_trace_allocation_stack_interval
    allocationSitePretenuring: bool)      // FLAG_allocation_site_pretenuring

  /** AllocationSpace; the tag values are the enum's order. */
  datatype Space = NewSpace | OldSpace | CodeSpace | MapSpace | LoSpace

  function SpaceId(s: Space): (id: nat)
    ensures id < 8   // fits kSpaceTagSize = 3 bits
  {
    match s
    case NewSpace => 0
    case OldSpace => 1
    case CodeSpace => 2
    case MapSpace => 3
    case LoSpace => 4
  }

  /** The MemoryChunk flags the mutator-side code reads. */
  datatype PageFlag =
    | FromSpaceFlag            // IN_FROM_SPACE
    | ToSpaceFlag              // IN_TO_SPACE
    | BelowAgeMarkFlag         // NEW_SPACE_BELOW_AGE_MARK
    | NewToNewPromotionFlag    // PAGE_NEW_NEW_PROMOTION
    | NewToOldPromotionFlag    // PAGE_NEW_OLD_PROMOTION

  /** Metadata of one page: owning space, flags and the object area. */
  datatype PageMeta = PageMeta(
    owner: Space,
    flags: set<PageFlag>,
    areaStart: Address,
    areaEnd: Address,
    executable: bool)
  {
    predicate IsFlagSet(f: PageFlag) { f in flags }

    /** MemoryChunk::InNewSpace: either semispace flag is set. */
    predicate InNewSpace() { FromSpaceFlag in flags || ToSpaceFlag in flags }

    /** Page::Contains: an address inside the object area. */
    predicate Contains(a: Address) { areaStart <= a < areaEnd }

    /** Page::ContainsLimit: like Contains, but the area end is included. */
    predicate ContainsLimit(a: Address) { areaStart <= a <= areaEnd }
  }

  /** The page table, keyed by page base address. */
  type PageTable = map<Address, PageMeta>

  /** Page::FromAddress: clear the low kPageSizeBits bits. */
  function PageOf(a: Address): (base: Address)
    ensures base % PageSize == 0
    ensures base <= a < base + PageSize
  {
    a - a % PageSize
  }

  /** Page::OnSamePage */
  predicate OnSamePage(a: Address, b: Address) { PageOf(a) == PageOf(b) }

  /** The page-aligned base that holds an address is the only one. */
  lemma PageOfUnique(base: Address, a: Address)
    requires base % PageSize == 0 && base <= a < base + PageSize
    ensures PageOf(a) == base
  {
    var k := base / PageSize;
    assert base == k * PageSize;
    assert a == k * PageSize + (a - base);
  }

  /** Pages are intervals: an address between two on one page is on it too. */
  lemma {:induction false} OnSamePageBetween(a: Address, b: Address, c: Address)
    requires a <= b <= c && OnSamePage(a, c)
    ensures OnSamePage(a, b) && OnSamePage(b, c)
  {
    PageOfUnique(PageOf(a), b);
  }

  /** An `Object*`: a small integer or a pointer to a heap object. */
  datatype Value = Smi(n: int) | HeapObject(address: Address)

  /** Every heap object the heap is asked about lies on a page it knows. */
  predicate Known(pages: PageTable, v: Value)
  {
    v.HeapObject? ==> PageOf(v.address) in pages
  }

  /** Heap::InNewSpace */
  predicate InNewSpace(pages: PageTable, v: Value)
    requires Known(pages, v)
  {
    v.HeapObject? && pages[PageOf(v.address)].InNewSpace()
  }

  /** Heap::InFromSpace */
  predicate InFromSpace(pages: PageTable, v: Value)
    requires Known(pages, v)
  {
    v.HeapObject? && pages[PageOf(v.address)].IsFlagSet(FromSpaceFlag)
  }

  /** Heap::InToSpace */
  predicate InToSpace(pages: PageTable, v: Value)
    requires Known(pages, v)
  {
    v.HeapObject? && pages[PageOf(v.address)].IsFlagSet(ToSpaceFlag)
  }

  /** New space is exactly the union of the two semispaces; small integers are in neither. */
  lemma NewSpaceIsFromOrToSpace(pages: PageTable, v: Value)
    requires Known(pages, v)
    ensures InNewSpace(pages, v) <==> InFromSpace(pages, v) || InToSpace(pages, v)
    ensures v.Smi? ==> !InNewSpace(pages, v)
  {
  }

  /**
   * Heap::ShouldBePromoted: the object sits on a page below the age mark,
   * and either the age mark is not on that page or the object precedes it.
   */
  predicate ShouldBePromoted(pages: PageTable, ageMark: Address, oldAddress: Address)
    requires PageOf(oldAddress) in pages
  {
    var page := pages[PageOf(oldAddress)];
    page.IsFlagSet(BelowAgeMarkFlag) && (!page.ContainsLimit(ageMark) || oldAddress < ageMark)
  }

  /** Every page is page-aligned and its object area starts on it. */
  predicate WellFormedPages(pages: PageTable)
  {
    forall base :: base in pages ==>
      && base % PageSize == 0
      && base <= pages[base].areaStart <= pages[base].areaEnd
      && pages[base].areaStart < base + PageSize
  }
}
