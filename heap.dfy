/**
 * The mutator-side heap: allocation dispatch with its event hooks, the
 * write barrier into the store buffer, pretenuring feedback, external-string
 * bookkeeping and the small counters the heap keeps in its roots.
 */
module Heaps {
  import opened Wrappers
  import opened HeapTypes
  import opened Allocation
  import opened WriteBarrier
  import opened Pretenuring
  import opened Instrumentation
  import opened Counters

  datatype GcState = NotInGC | InGC

  /** The linear allocation area of a paged space: [top, limit) on one page. */
  datatype LinearArea = LinearArea(page: Address, top: Address, limit: Address)

  /** A RecordWriteIntoCodeSlow call: the code object, the relocation slot and the value. */
  datatype CodeWrite = CodeWrite(host: Address, pc: Address, value: Value)

  /** The linear area lies inside the object area of a page the space owns. */
  predicate AreaOn(pages: PageTable, area: LinearArea, space: Space)
  {
    && area.page in pages
    && pages[area.page].owner == space
    && pages[area.page].areaStart <= area.top <= area.limit <= pages[area.page].areaEnd
    && pages[area.page].areaEnd <= area.page + PageSize
  }

  /** An object of `size` bytes at `address` lies inside the object area of a page of `space`. */
  predicate Placed(pages: PageTable, address: Address, size: nat, space: Space)
  {
    && PageOf(address) in pages
    && pages[PageOf(address)].owner == space
    && pages[PageOf(address)].areaStart <= address
    && address + size <= pages[PageOf(address)].areaEnd
  }

  /**
   * The heap's page layout: page-aligned pages; one linear area for each of
   * the new, old, code and map spaces on a page that space owns, the new
   * space's in to-space and the others outside new space; a code page area
   * of `codeAreaSize` bytes; and every page below where the next large page
   * goes.
   */
  predicate Layout(pages: PageTable, linearAreas: map<Space, LinearArea>, codeAreaSize: nat,
                   largePageHeader: nat, largePageNext: Address)
  {
    && WellFormedPages(pages)
    && (forall b :: b in pages ==> b < largePageNext)
    && (forall s :: s != LoSpace ==>
          && s in linearAreas
          && AreaOn(pages, linearAreas[s], s)
          && (pages[linearAreas[s].page].InNewSpace() <==> s == NewSpace))
    && ToSpaceFlag in pages[linearAreas[NewSpace].page].flags
    && pages[linearAreas[CodeSpace].page].areaEnd - pages[linearAreas[CodeSpace].page].areaStart == codeAreaSize
    && 0 < largePageHeader < PageSize
    && largePageNext % PageSize == 0
  }

  /**
   * The page table of a fresh heap: to-space, from-space, old, code and map
   * pages at the first five page bases after zero, each with its object area
   * `header` bytes after its base.
   */
  function InitialPages(header: nat): PageTable
  {
    map[
      PageSize := PageMeta(NewSpace, {ToSpaceFlag}, PageSize + header, 2 * PageSize, false),
      2 * PageSize := PageMeta(NewSpace, {FromSpaceFlag}, 2 * PageSize + header, 3 * PageSize, false),
      3 * PageSize := PageMeta(OldSpace, {}, 3 * PageSize + header, 4 * PageSize, false),
      4 * PageSize := PageMeta(CodeSpace, {}, 4 * PageSize + header, 5 * PageSize, true),
      5 * PageSize := PageMeta(MapSpace, {}, 5 * PageSize + header, 6 * PageSize, false)]
  }

  /** Each space's linear area spans its whole first page. */
  function InitialAreas(header: nat): map<Space, LinearArea>
  {
    map[
      NewSpace := LinearArea(PageSize, PageSize + header, 2 * PageSize),
      OldSpace := LinearArea(3 * PageSize, 3 * PageSize + header, 4 * PageSize),
      CodeSpace := LinearArea(4 * PageSize, 4 * PageSize + header, 5 * PageSize),
      MapSpace := LinearArea(5 * PageSize, 5 * PageSize + header, 6 * PageSize)]
  }

  lemma InitialPagesWellFormed(header: nat)
    requires 0 < header < PageSize
    ensures WellFormedPages(InitialPages(header))
  {
    assert InitialPages(header).Keys == {PageSize, 2 * PageSize, 3 * PageSize, 4 * PageSize, 5 * PageSize};
  }

  lemma InitialLayout(header: nat)
    requires 0 < header < PageSize
    ensures Layout(InitialPages(header), InitialAreas(header), PageSize - header, header, 6 * PageSize)
  {
    var pages := InitialPages(header);
    var areas := InitialAreas(header);
    InitialPagesWellFormed(header);
    assert pages.Keys == {PageSize, 2 * PageSize, 3 * PageSize, 4 * PageSize, 5 * PageSize};
    assert areas.Keys == {NewSpace, OldSpace, CodeSpace, MapSpace};
    assert areas[NewSpace].page == PageSize && areas[OldSpace].page == 3 * PageSize;
    assert areas[CodeSpace].page == 4 * PageSize && areas[MapSpace].page == 5 * PageSize;
  }

  /** A large page mapped at the next free base keeps the layout, with the free base moved past it. */
  lemma AddLargePage(pages: PageTable, linearAreas: map<Space, LinearArea>, codeAreaSize: nat,
                     largePageHeader: nat, largePageNext: Address, meta: PageMeta, newNext: Address)
    requires Layout(pages, linearAreas, codeAreaSize, largePageHeader, largePageNext)
    requires meta.owner == LoSpace && !meta.InNewSpace()
    requires largePageNext <= meta.areaStart <= meta.areaEnd && meta.areaStart < largePageNext + PageSize
    requires newNext % PageSize == 0 && largePageNext < newNext
    ensures Layout(pages[largePageNext := meta], linearAreas, codeAreaSize, largePageHeader, newNext)
  {
    var pages' := pages[largePageNext := meta];
    forall s | s != LoSpace
      ensures pages'[linearAreas[s].page] == pages[linearAreas[s].page]
    {
      assert AreaOn(pages, linearAreas[s], s);
    }
  }

  /**
   * Bumping a linear area's top within its limit keeps the layout, and the
   * bytes between the old and the new top are an object of that space, in
   * new space exactly when the space is new space.
   */
  lemma BumpKeepsLayout(pages: PageTable, linearAreas: map<Space, LinearArea>, codeAreaSize: nat,
                        largePageHeader: nat, largePageNext: Address, space: Space, size: nat)
    requires Layout(pages, linearAreas, codeAreaSize, largePageHeader, largePageNext)
    requires space != LoSpace && 0 < size <= linearAreas[space].limit - linearAreas[space].top
    ensures var area := linearAreas[space];
      && Layout(pages, linearAreas[space := area.(top := area.top + size)], codeAreaSize, largePageHeader, largePageNext)
      && Placed(pages, area.top, size, space)
      && (pages[PageOf(area.top)].InNewSpace() <==> space == NewSpace)
  {
    var area := linearAreas[space];
    var areas' := linearAreas[space := area.(top := area.top + size)];
    forall s | s != LoSpace
      ensures s in areas' && AreaOn(pages, areas'[s], s) && areas'[s].page == linearAreas[s].page
    {
      assert AreaOn(pages, linearAreas[s], s);
    }
    assert AreaOn(pages, area, space) && area.page % PageSize == 0;
    PageOfUnique(area.page, area.top);
  }

  /**
   * What a sub-allocator promises for a request of `size` bytes: pages
   * already mapped stay as they were; a retry names the sub-allocator's space
   * and maps nothing; a new object lies inside a page of that space, is in new
   * space exactly when new space allocated it, and from the large-object
   * space sits on a freshly mapped page of the requested executability.
   */
  ghost predicate SubAllocated(target: SubAllocator, size: nat, before: PageTable, after: PageTable,
                               result: AllocationResult)
  {
    && (forall b :: b in before ==> b in after && after[b] == before[b])
    && (result.Retry? ==> result.space == ResolvedSpace(target) && after == before)
    && (result.Success? ==>
          && Placed(after, result.address, size, ResolvedSpace(target))
          && (InNewSpace(after, HeapObject(result.address)) <==> target == NewSpaceAllocator)
          && (target.LargeObjectAllocator? ==>
                && PageOf(result.address) !in before
                && after[PageOf(result.address)].executable == target.executable))
  }

  /** The DCHECK on UpdateAllocationSite: the object is being evacuated out of new space. */
  predicate BeingEvacuated(pages: PageTable, obj: Address)
    requires PageOf(obj) in pages
  {
    var v := HeapObject(obj);
    || InFromSpace(pages, v)
    || (InToSpace(pages, v) && pages[PageOf(obj)].IsFlagSet(NewToNewPromotionFlag))
    || (!InNewSpace(pages, v) && pages[PageOf(obj)].IsFlagSet(NewToOldPromotionFlag))
  }

  /** Heap::PretenuringFeedbackMap: allocation site to mementos found. */
  class PretenuringFeedbackMap {
    var counts: Feedback

    constructor()
      ensures counts == map[]
    {
      counts := map[];
    }
  }

  /** The embedder's resource behind an external string; only its disposals are visible. */
  class ExternalResource {
    var disposeCount: nat

    constructor()
      ensures disposeCount == 0
    {
      disposeCount := 0;
    }

    method Dispose()
      modifies this
      ensures disposeCount == old(disposeCount) + 1
    {
      disposeCount := disposeCount + 1;
    }
  }

  /** An external string: its address and the resource field at kResourceOffset. */
  class ExternalString {
    const address: Address
    var resource: ExternalResource?

    constructor(address: Address, resource: ExternalResource?)
      ensures this.address == address && this.resource == resource
    {
      this.address := address;
      this.resource := resource;
    }
  }

  /** Heap::ExternalStringTable: the young and the old external strings. */
  class ExternalStringTable {
    var newSpaceStrings: seq<ExternalString>
    var oldSpaceStrings: seq<ExternalString>

    constructor()
      ensures newSpaceStrings == [] && oldSpaceStrings == []
    {
      newSpaceStrings := [];
      oldSpaceStrings := [];
    }

    /**
     * ExternalStringTable::AddString: the string joins the young list when
     * it is in new space and the old list otherwise; the other list is kept.
     */
    method AddString(s: ExternalString, pages: PageTable)
      requires PageOf(s.address) in pages
      modifies this
      ensures InNewSpace(pages, HeapObject(s.address)) ==>
        newSpaceStrings == old(newSpaceStrings) + [s] && oldSpaceStrings == old(oldSpaceStrings)
      ensures !InNewSpace(pages, HeapObject(s.address)) ==>
        oldSpaceStrings == old(oldSpaceStrings) + [s] && newSpaceStrings == old(newSpaceStrings)
    {
      if InNewSpace(pages, HeapObject(s.address)) {
        newSpaceStrings := newSpaceStrings + [s];
      } else {
        oldSpaceStrings := oldSpaceStrings + [s];
      }
    }
  }

  /** A FixedArray: its address and its elements. */
  class FixedArray {
    const address: Address
    const elements: array<Value>

    constructor(address: Address, elements: array<Value>)
      ensures this.address == address && this.elements == elements
    {
      this.address := address;
      this.elements := elements;
    }
  }

  class Heap {
    const flags: Flags
    /** StringHasher::AddCharacterCore */
    const mix: Mixer
    /** code_space()->AreaSize() */
    const codeAreaSize: nat
    /** The allocation_memento_map root. */
    const mementoMap: nat
    /** Bytes between a large page's base and its object. */
    const largePageHeader: nat
    const globalFeedback: PretenuringFeedbackMap
    const externalStringTable: ExternalStringTable
    /** The hook state when the heap was set up. */
    ghost const initialInstr: InstrState

    var gcState: GcState
    var pages: PageTable
    /** The linear areas of the new, old, code and map spaces. */
    var linearAreas: map<Space, LinearArea>
    var toSpaceAgeMark: Address
    var fromSpaceAgeMark: Address
    /** Where the large-object space maps its next page, and how many bytes it may still take. */
    var largePageNext: Address
    var largeObjectBudget: nat
    var liveSites: set<Site>

    var storeBuffer: seq<Address>
    var codeSlowPath: seq<CodeWrite>

    var newSpaceAllocationCounter: nat
    var newSpaceAllocatedSinceLastGC: nat

    var profilerTracksAllocations: bool
    var profilerTracksMoves: bool
    var allocationsCount: u32
    var rawAllocationsHash: u32
    ghost var hashedEvents: seq<HashedEvent>
    var timeRequests: nat
    var digestDumps: seq<u32>
    var stackTraces: seq<u32>
    var profilerEvents: seq<ProfilerEvent>
    var codeEvents: seq<CodeEvent>
    /** Every hook call so far, first to last. */
    ghost var hookCalls: seq<HookCall>
    /** The hook state before the first call and after each call. */
    ghost var instrTrace: seq<InstrState>

    var lastScriptId: int
    var nextTemplateSerialNumber: int
    var alwaysAllocateScopeCount: int

    /** The hook state, for the instrumentation specification. */
    ghost function Instr(): InstrState
      reads this`allocationsCount, this`rawAllocationsHash, this`hashedEvents, this`timeRequests,
            this`digestDumps, this`stackTraces, this`profilerEvents, this`codeEvents
    {
      InstrState(allocationsCount, rawAllocationsHash, hashedEvents, timeRequests,
                 digestDumps, stackTraces, profilerEvents, codeEvents)
    }

    /** The pages and linear areas are laid out as the allocators expect. */
    ghost predicate LayoutValid()
      reads this`pages, this`linearAreas, this`largePageNext
    {
      Layout(pages, linearAreas, codeAreaSize, largePageHeader, largePageNext)
    }

    /**
     * The hook state is traced from the initial one: each call took the
     * state before it to the state after it, and the last state is the
     * current one.
     */
    ghost predicate HooksValid()
      reads this`allocationsCount, this`rawAllocationsHash, this`hashedEvents, this`timeRequests,
            this`digestDumps, this`stackTraces, this`profilerEvents, this`codeEvents,
            this`hookCalls, this`instrTrace
    {
      && (flags.verifyPredictable ==> flags.dumpAllocationsDigestAtAlloc != 0)
      && initialInstr.hashed == []
      && Traced(mix, flags, instrTrace, hookCalls)
      && instrTrace[0] == initialInstr
      && instrTrace[|hookCalls|] == Instr()
    }

    /** The hook state is the replay of every hook call so far on the initial state. */
    lemma HooksReplay()
      requires HooksValid()
      ensures Instr() == Replay(mix, flags, initialInstr, hookCalls)
    {
      TracedIsReplay(mix, flags, instrTrace, hookCalls);
    }

    /**
     * On a valid heap the allocations hash is the digest of the events
     * folded since set-up and, under verify_predictable, the counter counts them.
     */
    lemma HooksConsistent()
      requires HooksValid()
      ensures Consistent(mix, flags, initialInstr.rawHash, initialInstr.allocationsCount, Instr())
    {
      HooksReplay();
      ReplayKeepsConsistent(mix, flags, initialInstr.rawHash, initialInstr.allocationsCount, initialInstr, hookCalls);
    }

    /** The ids kept in roots are small integers. */
    ghost predicate RootsValid()
      reads this`lastScriptId, this`nextTemplateSerialNumber
    {
      && 0 <= lastScriptId <= SmiMaxValue
      && 0 <= nextTemplateSerialNumber <= SmiMaxValue
    }

    ghost predicate Valid()
      reads this`pages, this`linearAreas, this`largePageNext,
            this`allocationsCount, this`rawAllocationsHash, this`hashedEvents, this`timeRequests,
            this`digestDumps, this`stackTraces, this`profilerEvents, this`codeEvents, this`hookCalls,
            this`instrTrace, this`lastScriptId, this`nextTemplateSerialNumber
    {
      LayoutValid() && HooksValid() && RootsValid()
    }

    /**
     * A heap with one page for each semispace and each paged space, each
     * page's object area starting `header` bytes after its base.
     */
    constructor(flags: Flags, mix: Mixer, mementoMap: nat, header: nat, largeObjectBudget: nat)
      requires flags.verifyPredictable ==> flags.dumpAllocationsDigestAtAlloc != 0
      requires 0 < header < PageSize
      ensures Valid()
      ensures fresh(globalFeedback) && fresh(externalStringTable)
      ensures gcState == NotInGC && storeBuffer == [] && Instr().hashed == []
      ensures lastScriptId == 0 && nextTemplateSerialNumber == 0 && alwaysAllocateScopeCount == 0
    {
      this.flags := flags;
      this.mix := mix;
      this.mementoMap := mementoMap;
      this.largePageHeader := header;
      this.codeAreaSize := PageSize - header;
      globalFeedback := new PretenuringFeedbackMap();
      externalStringTable := new ExternalStringTable();
      initialInstr := InstrState(0, 0, [], 0, [], [], [], []);
      pages := InitialPages(header);
      linearAreas := InitialAreas(header);
      InitialLayout(header);
      gcState := NotInGC;
      toSpaceAgeMark := PageSize + header;
      fromSpaceAgeMark := 2 * PageSize + header;
      largePageNext := 6 * PageSize;
      this.largeObjectBudget := largeObjectBudget;
      liveSites := {};
      storeBuffer := [];
      codeSlowPath := [];
      newSpaceAllocationCounter := 0;
      newSpaceAllocatedSinceLastGC := 0;
      profilerTracksAllocations := false;
      profilerTracksMoves := false;
      allocationsCount := 0;
      rawAllocationsHash := 0;
      hashedEvents := [];
      timeRequests := 0;
      digestDumps := [];
      stackTraces := [];
      profilerEvents := [];
      codeEvents := [];
      hookCalls := [];
      instrTrace := [initialInstr];
      lastScriptId := 0;
      nextTemplateSerialNumber := 0;
      alwaysAllocateScopeCount := 0;
    }

    /** Heap::NewSpaceTop and the rest of what the memento lookup reads from new space. */
    function View(): (ns: NewSpaceView)
      requires LayoutValid()
      reads this`pages, this`linearAreas, this`largePageNext, this`toSpaceAgeMark, this`fromSpaceAgeMark,
            this`liveSites
      ensures ns.top == linearAreas[NewSpace].top && ns.mementoMap == mementoMap
    {
      NewSpaceView(linearAreas[NewSpace].top, toSpaceAgeMark, fromSpaceAgeMark, mementoMap, liveSites)
    }

    /** Heap::NewSpaceAllocationCounter */
    function NewSpaceAllocationCounter(): nat
      reads this`newSpaceAllocationCounter, this`newSpaceAllocatedSinceLastGC
    {
      newSpaceAllocationCounter + newSpaceAllocatedSinceLastGC
    }

    /** Heap::UpdateNewSpaceAllocationCounter: fold the bytes since the last GC into the counter. */
    method UpdateNewSpaceAllocationCounter()
      modifies this`newSpaceAllocationCounter
      ensures newSpaceAllocationCounter == old(newSpaceAllocationCounter) + newSpaceAllocatedSinceLastGC
    {
      newSpaceAllocationCounter := NewSpaceAllocationCounter();
    }

    /**
     * The AllocateRaw of a paged space or of new space: bump the linear area
     * on success, name the space on Retry. Alignment fill is not modelled.
     */
    method LinearAllocate(space: Space, size: nat, alignment: AllocationAlignment) returns (result: AllocationResult)
      requires LayoutValid() && space != LoSpace && size > 0
      modifies this`linearAreas, this`newSpaceAllocatedSinceLastGC
      ensures LayoutValid()
      ensures result.Retry? ==> result.space == space && linearAreas == old(linearAreas)
      ensures result.Success? ==>
        && Placed(pages, result.address, size, space)
        && (pages[PageOf(result.address)].InNewSpace() <==> space == NewSpace)
        && result.address == old(linearAreas[space].top)
        && linearAreas == old(linearAreas)[space := old(linearAreas[space]).(top := result.address + size)]
      ensures newSpaceAllocatedSinceLastGC ==
        old(newSpaceAllocatedSinceLastGC) + (if result.Success? && space == NewSpace then size else 0)
    {
      var area := linearAreas[space];
      if size > area.limit - area.top {
        return Retry(space);
      }
      BumpKeepsLayout(pages, linearAreas, codeAreaSize, largePageHeader, largePageNext, space, size);
      result := Success(area.top);
      linearAreas := linearAreas[space := area.(top := area.top + size)];
      if space == NewSpace {
        newSpaceAllocatedSinceLastGC := newSpaceAllocatedSinceLastGC + size;
      }
    }

    /**
     * LargeObjectSpace::AllocateRaw: a fresh page of the requested
     * executability holding just the object, or Retry when the budget is spent.
     */
    method LargeObjectAllocate(size: nat, executable: bool) returns (result: AllocationResult)
      requires LayoutValid() && size > 0
      modifies this`pages, this`largePageNext, this`largeObjectBudget
      ensures LayoutValid()
      ensures result.Retry? ==> result.space == LoSpace && pages == old(pages)
      ensures result.Success? ==>
        && Placed(pages, result.address, size, LoSpace)
        && PageOf(result.address) !in old(pages)
        && pages[PageOf(result.address)].executable == executable
        && !pages[PageOf(result.address)].InNewSpace()
      ensures forall b :: b in old(pages) ==> b in pages && pages[b] == old(pages)[b]
    {
      if size > largeObjectBudget {
        return Retry(LoSpace);
      }
      var base := largePageNext;
      var start := base + largePageHeader;
      PageOfUnique(base, start);
      var k := (largePageHeader + size) / PageSize + 1;
      var next := (base / PageSize + k) * PageSize;
      assert next % PageSize == 0;
      AddLargePage(pages, linearAreas, codeAreaSize, largePageHeader, base,
                   PageMeta(LoSpace, {}, start, start + size, executable), next);
      pages := pages[base := PageMeta(LoSpace, {}, start, start + size, executable)];
      largePageNext := next;
      largeObjectBudget := largeObjectBudget - size;
      result := Success(start);
    }

    /**
     * The AllocateRaw (or AllocateRawUnaligned) of the chosen sub-allocator.
     * Code and map space allocate unaligned; large pages are executable
     * exactly for code.
     */
    method SubAllocate(target: SubAllocator, size: nat, alignment: AllocationAlignment) returns (result: AllocationResult)
      requires LayoutValid() && size > 0
      modifies this`pages, this`linearAreas, this`largePageNext, this`largeObjectBudget,
               this`newSpaceAllocatedSinceLastGC
      ensures LayoutValid()
      ensures SubAllocated(target, size, old(pages), pages, result)
      ensures newSpaceAllocatedSinceLastGC ==
        old(newSpaceAllocatedSinceLastGC) + (if result.Success? && target == NewSpaceAllocator then size else 0)
    {
      match target
      case NewSpaceAllocator => result := LinearAllocate(NewSpace, size, alignment);
      case OldSpaceAllocator => result := LinearAllocate(OldSpace, size, alignment);
      case CodeSpaceAllocator => result := LinearAllocate(CodeSpace, size, WordAligned);
      case MapSpaceAllocator => result := LinearAllocate(MapSpace, size, WordAligned);
      case LargeObjectAllocator(executable) => result := LargeObjectAllocate(size, executable);
    }

    /**
     * Heap::AllocateRaw. The sub-allocator is the one Route picks; its Retry
     * is passed on as it is, and the allocation hook runs exactly on success.
     */
    method AllocateRaw(size: i32, space: Space, alignment: AllocationAlignment) returns (result: AllocationResult)
      requires Valid() && gcState == NotInGC
      requires size > 0 && ValidRequest(size, space)
      modifies this`pages, this`linearAreas, this`largePageNext, this`largeObjectBudget,
               this`newSpaceAllocatedSinceLastGC,
               this`allocationsCount, this`rawAllocationsHash, this`hashedEvents, this`timeRequests,
               this`digestDumps, this`stackTraces, this`profilerEvents, this`hookCalls,
               this`instrTrace
      ensures Valid()
      ensures SubAllocated(Route(size, space, codeAreaSize), size, old(pages), pages, result)
      ensures hookCalls == old(hookCalls) +
        if result.Success?
        then [AllocationCall(result.address, ObjectHashWord(pages, result.address), size, profilerTracksAllocations)]
        else []
      ensures NewSpaceAllocationCounter() ==
        old(NewSpaceAllocationCounter())
        + (if result.Success? && Route(size, space, codeAreaSize) == NewSpaceAllocator then size else 0)
    {
      var target := Route(size, space, codeAreaSize);
      result := SubAllocate(target, size, alignment);
      NotifyAllocation(result, size, target, old(pages));
    }

    /** The tail of Heap::AllocateRaw: the allocation hook runs exactly on success. */
    method NotifyAllocation(result: AllocationResult, size: i32, ghost target: SubAllocator, ghost before: PageTable)
      requires Valid() && size > 0 && SubAllocated(target, size, before, pages, result)
      modifies this`allocationsCount, this`rawAllocationsHash, this`hashedEvents, this`timeRequests,
               this`digestDumps, this`stackTraces, this`profilerEvents, this`hookCalls, this`instrTrace
      ensures Valid() && SubAllocated(target, size, before, pages, result)
      ensures hookCalls == old(hookCalls) +
        if result.Success?
        then [AllocationCall(result.address, ObjectHashWord(pages, result.address), size, profilerTracksAllocations)]
        else []
      ensures NewSpaceAllocationCounter() == old(NewSpaceAllocationCounter())
    {
      if result.Success? {
        OnAllocationEvent(result.address, size);
      }
    }

    /**
     * Heap::OnAllocationEvent: tell the profiler, then under
     * verify_predictable count the event, request the time, fold the
     * object's hash word and the size and dump the digest when due; with a
     * stack-trace interval, count (unless already counted) and print a
     * stack when due.
     */
    method OnAllocationEvent(obj: Address, size: i32)
      requires HooksValid() && PageOf(obj) in pages
      modifies this`allocationsCount, this`rawAllocationsHash, this`hashedEvents, this`timeRequests,
               this`digestDumps, this`stackTraces, this`profilerEvents, this`hookCalls, this`instrTrace
      ensures HooksValid()
      ensures hookCalls == old(hookCalls) + [AllocationCall(obj, ObjectHashWord(pages, obj), size, profilerTracksAllocations)]
    {
      ghost var s0 := Instr();
      if profilerTracksAllocations {
        profilerEvents := profilerEvents + [AllocationEvent(obj, size)];
      }
      ghost var s1 := Instr();
      if flags.verifyPredictable {
        HashAllocation(obj, size);
      }
      ghost var s2 := Instr();
      if flags.traceAllocationStackInterval > 0 {
        TraceAllocation();
      }
      AllocationEventStages(mix, flags, profilerTracksAllocations, s0, obj, ObjectHashWord(pages, obj), size, s1, s2);
      ghost var call := AllocationCall(obj, ObjectHashWord(pages, obj), size, profilerTracksAllocations);
      TracedAppend(mix, flags, instrTrace, hookCalls, call, Instr());
      hookCalls := hookCalls + [call];
      instrTrace := instrTrace + [Instr()];
    }

    /** The verify_predictable block of Heap::OnAllocationEvent. */
    method HashAllocation(obj: Address, size: i32)
      requires flags.verifyPredictable && flags.dumpAllocationsDigestAtAlloc != 0 && PageOf(obj) in pages
      modifies this`allocationsCount, this`rawAllocationsHash, this`hashedEvents, this`timeRequests,
               this`digestDumps
      ensures Instr() == PredictableStep(mix, flags, old(Instr()), AllocationHashed(ObjectHashWord(pages, obj), AsUint32(size)))
    {
      ghost var s1 := Instr();
      allocationsCount := Wrap32(allocationsCount + 1);
      MonotonicallyIncreasingTimeInMs();
      UpdateAllocationsHashForObject(obj);
      UpdateAllocationsHash(AsUint32(size));
      ghost var e := AllocationHashed(ObjectHashWord(pages, obj), AsUint32(size));
      hashedEvents := hashedEvents + [e];
      if DigestDue(flags, allocationsCount) {
        PrintAllocationsHash();
      }
      PredictableStepByFields(mix, flags, s1, e, Instr());
    }

    /** The stack-trace block of Heap::OnAllocationEvent. */
    method TraceAllocation()
      requires flags.traceAllocationStackInterval > 0
      modifies this`allocationsCount, this`stackTraces
      ensures Instr() == TraceAllocationStack(flags, old(Instr()))
    {
      if !flags.verifyPredictable {
        allocationsCount := Wrap32(allocationsCount + 1);
      }
      if allocationsCount % flags.traceAllocationStackInterval as int == 0 {
        PrintStack();
      }
    }

    /** Heap::MonotonicallyIncreasingTimeInMs: only the request is visible. */
    method MonotonicallyIncreasingTimeInMs()
      modifies this`timeRequests
      ensures timeRequests == old(timeRequests) + 1
    {
      timeRequests := timeRequests + 1;
    }

    /** Heap::PrintAllocationsHash: the digest printed is the current hash. */
    method PrintAllocationsHash()
      modifies this`digestDumps
      ensures digestDumps == old(digestDumps) + [rawAllocationsHash]
    {
      digestDumps := digestDumps + [rawAllocationsHash];
    }

    /** Isolate::PrintStack: the stack is printed at the current count. */
    method PrintStack()
      modifies this`stackTraces
      ensures stackTraces == old(stackTraces) + [allocationsCount]
    {
      stackTraces := stackTraces + [allocationsCount];
    }

    /**
     * Heap::OnMoveEvent: tell the profiler and, for a SharedFunctionInfo,
     * the code logger; under verify_predictable count the event, request the
     * time, fold source, target and size and dump the digest when due.
     */
    method OnMoveEvent(target: Address, source: Address, size: i32, targetIsSharedFunctionInfo: bool)
      requires HooksValid() && PageOf(target) in pages && PageOf(source) in pages
      modifies this`allocationsCount, this`rawAllocationsHash, this`hashedEvents, this`timeRequests,
               this`digestDumps, this`profilerEvents, this`codeEvents, this`hookCalls, this`instrTrace
      ensures HooksValid()
      ensures hookCalls == old(hookCalls) +
        [MoveCall(target, source, targetIsSharedFunctionInfo, ObjectHashWord(pages, target),
                  ObjectHashWord(pages, source), size, profilerTracksMoves)]
    {
      ghost var s0 := Instr();
      if profilerTracksMoves {
        profilerEvents := profilerEvents + [ObjectMoveEvent(source, target, size)];
      }
      assert Instr() == ProfileMove(profilerTracksMoves, s0, target, source, size);
      ghost var s1 := Instr();
      if targetIsSharedFunctionInfo {
        codeEvents := codeEvents + [SharedFunctionInfoMoveEvent(source, target)];
      }
      assert Instr() == LogMove(targetIsSharedFunctionInfo, s1, target, source);
      if flags.verifyPredictable {
        HashMove(target, source, size);
      }
      ghost var call := MoveCall(target, source, targetIsSharedFunctionInfo, ObjectHashWord(pages, target),
                                 ObjectHashWord(pages, source), size, profilerTracksMoves);
      TracedAppend(mix, flags, instrTrace, hookCalls, call, Instr());
      hookCalls := hookCalls + [call];
      instrTrace := instrTrace + [Instr()];
    }

    /** The verify_predictable block of Heap::OnMoveEvent: source, then target, then size. */
    method HashMove(target: Address, source: Address, size: i32)
      requires flags.verifyPredictable && flags.dumpAllocationsDigestAtAlloc != 0
      requires PageOf(target) in pages && PageOf(source) in pages
      modifies this`allocationsCount, this`rawAllocationsHash, this`hashedEvents, this`timeRequests,
               this`digestDumps
      ensures Instr() == PredictableStep(mix, flags, old(Instr()),
                                         MoveHashed(ObjectHashWord(pages, source), ObjectHashWord(pages, target), AsUint32(size)))
    {
      ghost var s0 := Instr();
      allocationsCount := Wrap32(allocationsCount + 1);
      MonotonicallyIncreasingTimeInMs();
      UpdateAllocationsHashForObject(source);
      UpdateAllocationsHashForObject(target);
      UpdateAllocationsHash(AsUint32(size));
      ghost var e := MoveHashed(ObjectHashWord(pages, source), ObjectHashWord(pages, target), AsUint32(size));
      hashedEvents := hashedEvents + [e];
      if DigestDue(flags, allocationsCount) {
        PrintAllocationsHash();
      }
      PredictableStepByFields(mix, flags, s0, e, Instr());
    }

    /** Heap::UpdateAllocationsHash(HeapObject*): fold the object's page offset and space. */
    method UpdateAllocationsHashForObject(obj: Address)
      requires PageOf(obj) in pages
      modifies this`rawAllocationsHash
      ensures rawAllocationsHash == FoldWord(mix, old(rawAllocationsHash), ObjectHashWord(pages, obj))
    {
      var chunk := PageOf(obj);
      var value := PackSpaceOffset(obj - chunk, pages[chunk].owner);
      UpdateAllocationsHash(value);
    }

    /** Heap::UpdateAllocationsHash(uint32_t): fold the low half, then the high half. */
    method UpdateAllocationsHash(value: u32)
      modifies this`rawAllocationsHash
      ensures rawAllocationsHash == FoldWord(mix, old(rawAllocationsHash), value)
    {
      var c1 := value % 0x1_0000;
      var c2 := value / 0x1_0000;
      rawAllocationsHash := mix(rawAllocationsHash, c1);
      rawAllocationsHash := mix(rawAllocationsHash, c2);
    }

    /** Heap::RegisterExternalString */
    method RegisterExternalString(s: ExternalString)
      requires PageOf(s.address) in pages
      modifies externalStringTable
      ensures InNewSpace(pages, HeapObject(s.address)) ==>
        externalStringTable.newSpaceStrings == old(externalStringTable.newSpaceStrings) + [s]
        && externalStringTable.oldSpaceStrings == old(externalStringTable.oldSpaceStrings)
      ensures !InNewSpace(pages, HeapObject(s.address)) ==>
        externalStringTable.oldSpaceStrings == old(externalStringTable.oldSpaceStrings) + [s]
        && externalStringTable.newSpaceStrings == old(externalStringTable.newSpaceStrings)
    {
      externalStringTable.AddString(s, pages);
    }

    /**
     * Heap::FinalizeExternalString: dispose of a resource that is still
     * there and clear the field, so a second call does nothing.
     */
    method FinalizeExternalString(s: ExternalString)
      modifies s, s.resource
      ensures s.resource == null
      ensures old(s.resource) != null ==> old(s.resource).disposeCount == old(s.resource.disposeCount) + 1
      ensures old(s.resource) == null ==> unchanged(s)
    {
      if s.resource != null {
        s.resource.Dispose();
        s.resource := null;
      }
    }

    /** Heap::RecordWrite: an old-to-new store records its slot. */
    method RecordWrite(container: Value, slot: Address, value: Value)
      requires Known(pages, container) && Known(pages, value)
      modifies this`storeBuffer
      ensures IsOldToNew(pages, container, value) ==> storeBuffer == old(storeBuffer) + [slot]
      ensures !IsOldToNew(pages, container, value) ==> storeBuffer == old(storeBuffer)
    {
      if !InNewSpace(pages, value) || !container.HeapObject? || InNewSpace(pages, container) {
        return;
      }
      storeBuffer := storeBuffer + [slot];
    }

    /** Heap::RecordWriteIntoCode: a young value takes the slow path. */
    method RecordWriteIntoCode(host: Address, pc: Address, value: Value)
      requires Known(pages, value)
      modifies this`codeSlowPath
      ensures InNewSpace(pages, value) ==> codeSlowPath == old(codeSlowPath) + [CodeWrite(host, pc, value)]
      ensures !InNewSpace(pages, value) ==> codeSlowPath == old(codeSlowPath)
    {
      if InNewSpace(pages, value) {
        codeSlowPath := codeSlowPath + [CodeWrite(host, pc, value)];
      }
    }

    /**
     * Heap::RecordFixedArrayElements over [offset, offset + length): the
     * entries are those a RecordWrite of each element would add.
     */
    method RecordFixedArrayElements(fixedArray: FixedArray, offset: int, length: int)
      requires PageOf(fixedArray.address) in pages
      requires KnownElements(pages, fixedArray.elements[..])
      requires 0 <= offset && offset + (if length > 0 then length else 0) <= fixedArray.elements.Length
      modifies this`storeBuffer
      ensures storeBuffer == old(storeBuffer) + PerElementEntries(pages, fixedArray.address, fixedArray.elements[..],
                                                                  offset, offset + (if length > 0 then length else 0))
    {
      var count := if length > 0 then length else 0;
      var elements := fixedArray.elements[..];
      BulkBarrierIsPerElementBarrier(pages, fixedArray.address, elements, offset, offset + count);
      if InNewSpace(pages, HeapObject(fixedArray.address)) {
        return;
      }
      for i := 0 to count
        invariant storeBuffer == old(storeBuffer) + YoungSlots(pages, fixedArray.address, elements, offset, offset + i)
      {
        if !InNewSpace(pages, fixedArray.elements[offset + i]) {
          continue;
        }
        storeBuffer := storeBuffer + [ElementSlot(fixedArray.address, offset + i)];
      }
    }

    /**
     * Heap::UpdateAllocationSite on a feedback map other than the global one,
     * for an object that is being evacuated; `objectSize` and `trackable`
     * are what the object's map gives.
     */
    method UpdateAllocationSite(mem: Memory, obj: Address, objectSize: nat, trackable: bool,
                                feedback: PretenuringFeedbackMap)
      requires Valid() && PageOf(obj) in pages
      requires feedback != globalFeedback
      requires BeingEvacuated(pages, obj)
      modifies feedback
      ensures feedback.counts == FeedbackAfterUpdate(flags.allocationSitePretenuring, trackable, pages, View(), mem,
                                                     obj, objectSize, old(feedback.counts))
    {
      if !flags.allocationSitePretenuring || !trackable {
        return;
      }
      var memento := FindAllocationMemento(ForGC, pages, View(), mem, obj, objectSize);
      if memento.None? {
        return;
      }
      var key := mem(memento.value + kPointerSize);
      feedback.counts := feedback.counts[key := Count(feedback.counts, key) + 1];
    }

    /** Heap::RemoveAllocationSitePretenuringFeedback: erase the site's entry. */
    method RemoveAllocationSitePretenuringFeedback(site: Site)
      modifies globalFeedback
      ensures site !in globalFeedback.counts
      ensures forall k :: k in old(globalFeedback.counts) && k != site ==>
        k in globalFeedback.counts && globalFeedback.counts[k] == old(globalFeedback.counts)[k]
      ensures globalFeedback.counts.Keys == old(globalFeedback.counts).Keys - {site}
    {
      globalFeedback.counts := globalFeedback.counts - {site};
    }

    /** Heap::NextScriptId */
    method NextScriptId() returns (id: int)
      requires Valid()
      modifies this`lastScriptId
      ensures Valid()
      ensures id == lastScriptId == NextScriptIdAfter(old(lastScriptId))
      ensures 1 <= id <= SmiMaxValue
    {
      var lastId := lastScriptId;
      if lastId == SmiMaxValue {
        lastId := 1;
      } else {
        lastId := lastId + 1;
      }
      lastScriptId := lastId;
      id := lastId;
    }

    /** Heap::GetNextTemplateSerialNumber; the next number must still be a small integer. */
    method GetNextTemplateSerialNumber() returns (n: int)
      requires Valid() && nextTemplateSerialNumber < SmiMaxValue
      modifies this`nextTemplateSerialNumber
      ensures Valid()
      ensures n == nextTemplateSerialNumber == old(nextTemplateSerialNumber) + 1
    {
      n := nextTemplateSerialNumber + 1;
      nextTemplateSerialNumber := n;
    }
  }

  /** AlwaysAllocateScope: while one is open, the heap always allocates. */
  class AlwaysAllocateScope {
    const heap: Heap

    constructor(heap: Heap)
      modifies heap`alwaysAllocateScopeCount
      ensures this.heap == heap
      ensures heap.alwaysAllocateScopeCount == old(heap.alwaysAllocateScopeCount) + 1
    {
      this.heap := heap;
      heap.alwaysAllocateScopeCount := heap.alwaysAllocateScopeCount + 1;
    }

    /** The destructor. */
    method Close()
      modifies heap`alwaysAllocateScopeCount
      ensures heap.alwaysAllocateScopeCount == old(heap.alwaysAllocateScopeCount) - 1
    {
      heap.alwaysAllocateScopeCount := heap.alwaysAllocateScopeCount - 1;
    }
  }
}
