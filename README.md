# V8 heap bookkeeping on the mutator side, in Dafny

This project models the part of V8's `Heap` that runs on every allocation
and every pointer store (`src/heap/heap-inl.h`), and proves what it promises.
It covers:

- **Allocation dispatch.** `Heap::AllocateRaw` chooses a sub-allocator for a
  (size, space) request. Objects above `kMaxRegularHeapObjectSize` go to the
  large-object space, and code that does not fit a code page goes to
  executable large pages. A `Retry` is passed back unchanged. The allocation
  hook fires exactly on success. `AllocationResult` is a sum type.
- **Allocation and move hooks.** The profiler and logger notifications, the
  event counter and the `verify_predictable` rolling hash. Each allocation
  folds its page-relative hash word, then its size. Each move folds source,
  then target, then size. Every 32-bit word is folded low half first, then
  high half, through the string hasher's `AddCharacterCore`. Digest dumps and
  stack prints happen at their intervals.
- **Generational write barrier.** `RecordWrite`, `RecordWriteIntoCode` and
  the bulk `RecordFixedArrayElements` append to an ordered store buffer.
- **Allocation mementos and pretenuring feedback.** The two-mode
  `FindAllocationMemento` check chain, `UpdateAllocationSite` on a private
  feedback map, and `RemoveAllocationSitePretenuringFeedback`. The page-flag
  predicates `InNewSpace`, `InFromSpace`, `InToSpace` and `ShouldBePromoted`.
- **External strings.** `ExternalStringTable::AddString` and the idempotent
  `FinalizeExternalString`.
- **Small counters.** `NextScriptId` (wraps from `Smi::kMaxValue` to 1),
  `GetNextTemplateSerialNumber`, `AlwaysAllocateScope` and the new-space
  allocation counter.

Layout constants are those of a 64-bit build:

- `kPageSizeBits` = 19, so pages are 512 KB.
- `kPointerSize` = 8.
- `kMaxRegularHeapObjectSize` = 507136.
- `Smi::kMaxValue` = 2^31 - 1.
- `FixedArray::kHeaderSize` = 16.
- Space tags follow `AllocationSpace` order: NEW = 0, OLD = 1, CODE = 2, MAP = 3, LO = 4.

Files:

- `heap_types.dfy`: addresses, pages, flags and the generation predicates.
- `allocation.dfy`: `AllocationResult` and the dispatcher's routing decision.
- `write_barrier.dfy`: the store-buffer entries as functions, and the
  equivalence of the bulk barrier with per-element barriers.
- `pretenuring.dfy`: the memento lookup and the feedback update.
- `instrumentation.dfy`: hash words, folding, the effect of each hook on the
  hook state, and replay.
- `counters.dfy`: the script id sequence.
- `heap.dfy`: the `Heap` class, whose methods update its fields in place, and
  the small classes around it: the feedback map, external strings and their
  table, fixed arrays and `AlwaysAllocateScope`.

The heap's invariant `Valid()` has three parts:

- the page layout the sub-allocators need;
- the hook state is the replay of every hook call since set-up, recorded as a
  ghost trace;
- the ids kept in roots are small integers.

Every state-changing method keeps `Valid()`. Through `HooksConsistent`, the
allocations hash is always the digest of the events folded so far.

## Model

| member | source | states |
|---|---|---|
| Allocation.AllocationResult.RetrySpace | src/heap/heap-inl.h:33-36 | only a Retry has a retry space, and it is the space the Retry carries |
| Allocation.AllocationResult.ToObjectChecked | src/heap/heap-inl.h:38-41 | only a success yields an object, and it is the allocated address |
| Allocation.Route | src/heap/heap-inl.h:238-273 | a large page is chosen exactly for new/old/LO requests above kMaxRegularHeapObjectSize and for code requests above the code area size; it is executable exactly for code; otherwise the requested space serves; new space serves exactly small new-space requests |
| Heaps.Heap.AllocateRaw | src/heap/heap-inl.h:224-280 | requires NOT_IN_GC and, for a direct LO_SPACE request, a large size; the result is what the routed sub-allocator returns (Retry naming its space with no page mapped, or an object inside a page of that space, young exactly when new space allocated it, on a fresh page of the right executability for large objects); exactly one allocation hook call on success and none on Retry; the new-space allocation counter grows by the size exactly on a new-space success; the heap invariant is kept |
| Heaps.Heap.NotifyAllocation | src/heap/heap-inl.h:246-249 | the allocation hook is called once with the new object and its size when the result is a success, and never on Retry |
| Heaps.Heap.SubAllocate | src/heap/heap-inl.h:245-270 | the sub-allocator that Route names either returns Retry naming its own space, or returns an object placed as SubAllocated describes; pages already mapped are never changed |
| Heaps.Heap.LinearAllocate | src/heap/heap-inl.h:245 | a bump allocation in the space's linear area: Retry names the space and leaves the areas; a success starts at the old top, lies in a page of that space, is young exactly for new space, and advances that space's top by the size, leaving the other areas as they were |
| Heaps.Heap.LargeObjectAllocate | src/heap/heap-inl.h:256 | a large-object allocation maps a fresh, old-generation page of the requested executability holding the object, or returns Retry(LO_SPACE) without mapping anything |
| Heaps.Heap.OnAllocationEvent | src/heap/heap-inl.h:283-308 | the hook appends one allocation call, with the object's hash word, to the hook history; the state change is that call's effect, so the hook invariant is kept |
| Heaps.Heap.HashAllocation | src/heap/heap-inl.h:289-300 | under verify_predictable: the counter is advanced once modulo 2^32, time is requested once, the hash word and then the size are folded, and the digest is dumped when the counter is a multiple of the interval (as unsigned) |
| Heaps.Heap.TraceAllocation | src/heap/heap-inl.h:302-307 | with a stack interval: count unless verify_predictable already counted, and print the stack exactly when the count is a multiple of the interval |
| Heaps.Heap.OnMoveEvent | src/heap/heap-inl.h:311-336 | the hook appends one move call to the hook history, and its effect is the profiler event, the SharedFunctionInfo log event and the predictable step |
| Heaps.Heap.HashMove | src/heap/heap-inl.h:323-335 | under verify_predictable: one counter step and one time request, then source, target and size are folded in that order, with a digest dump when due |
| Heaps.Heap.UpdateAllocationsHashForObject | src/heap/heap-inl.h:339-350 | folds the object's page offset OR'd with its page owner's space id shifted by kPageSizeBits |
| Heaps.Heap.UpdateAllocationsHash | src/heap/heap-inl.h:353-360 | folds the low 16 bits of the value, then the high 16 bits |
| Heaps.Heap.MonotonicallyIncreasingTimeInMs | src/heap/heap-inl.h:292 | each synthetic-time request is recorded once |
| Heaps.Heap.PrintAllocationsHash | src/heap/heap-inl.h:298 | the digest printed is the current hash |
| Heaps.Heap.PrintStack | src/heap/heap-inl.h:305 | a concise stack is printed at the current count |
| Heaps.Heap.HooksReplay | src/heap/heap-inl.h:283-336 | on a valid heap, the hook state is the replay of every hook call since set-up |
| Heaps.Heap.HooksConsistent | src/heap/heap-inl.h:283-360 | on a valid heap, the hash is the digest of the events folded since set-up, and under verify_predictable the counter counts them modulo 2^32 |
| Instrumentation.PackSpaceOffset | src/heap/heap-inl.h:344-347 | the page offset and the space id occupy disjoint bits of a 32-bit word, so both can be read back |
| Instrumentation.ObjectHashWordIsPageRelative | src/heap/heap-inl.h:339-350 | two objects get the same hash word exactly when they sit at the same page offset on pages of the same space |
| Instrumentation.HalvesMakeWord | src/heap/heap-inl.h:354-355 | the two 16-bit halves folded are the whole word, and a single word splits into its low half, then its high half |
| Instrumentation.FoldWordsIsStringHash | src/heap/heap-inl.h:353-360 | folding words is string-hashing their 16-bit halves, each word low half first, in word order |
| Instrumentation.FoldWordsAppend | src/heap/heap-inl.h:353-360 | folding a concatenation is folding one part after the other |
| Instrumentation.DigestExtend | src/heap/heap-inl.h:294-295 | one more event folds exactly that event's words into the previous digest |
| Instrumentation.FoldEventIsFoldWords | src/heap/heap-inl.h:328-330 | an event folded word by word is its word sequence folded, source before target before size |
| Instrumentation.PredictableStepExtends | src/heap/heap-inl.h:289-300 | one predictable step keeps the hash equal to the digest of the folded events and the counter in step with them |
| Instrumentation.AllocationEventFoldsOneEvent | src/heap/heap-inl.h:283-308 | under verify_predictable an allocation folds exactly one event (location word, then size) and advances the counter once; otherwise the hash is untouched; the profiler hears of it exactly when it tracks allocations |
| Instrumentation.MoveEventFoldsOneEvent | src/heap/heap-inl.h:311-336 | under verify_predictable a move folds exactly one event (source, target, size) and advances the counter once; otherwise neither the hash nor the counter changes |
| Instrumentation.TracedAppend | src/heap/heap-inl.h:283-336 | recording one more hook call with the state it produced keeps the hook history a trace |
| Instrumentation.TracedIsReplay | src/heap/heap-inl.h:283-336 | the last state of a hook trace is the replay of its calls on its first state |
| Instrumentation.ReplayKeepsConsistent | src/heap/heap-inl.h:283-360 | whatever sequence of allocation and move hooks runs, the hash remains the digest of the events folded and the counter counts them |
| Instrumentation.ReplayGivesSameDigest | src/heap/heap-inl.h:339-360 | two runs folding the same events from the same start reach the same hash and counter; that hash is the string hash of the events' halves |
| HeapTypes.Wrap32 | src/heap/heap-inl.h:290 | the 32-bit counter wraps, and below 2^32 it is the plain value |
| HeapTypes.AsUint32 | src/heap/heap-inl.h:295 | converting an int to uint32_t keeps its value modulo 2^32 |
| HeapTypes.SpaceId | src/heap/heap-inl.h:344 | every space id fits kSpaceTagSize bits |
| HeapTypes.PageOf | src/heap/heap-inl.h:392 | Page::FromAddress gives the page-aligned base at most one page below the address |
| HeapTypes.OnSamePageBetween | src/heap/heap-inl.h:466 | an address between two addresses on one page lies on that page too |
| HeapTypes.NewSpaceIsFromOrToSpace | src/heap/heap-inl.h:388-410 | an object is in new space exactly when it is in from-space or to-space; a small integer is in none |
| HeapTypes.InNewSpace | src/heap/heap-inl.h:388-397 | a value is in new space exactly when it is a heap object whose page has either semispace flag |
| HeapTypes.InFromSpace | src/heap/heap-inl.h:399-403 | a value is in from-space exactly when it is a heap object whose page has IN_FROM_SPACE |
| HeapTypes.InToSpace | src/heap/heap-inl.h:406-410 | a value is in to-space exactly when it is a heap object whose page has IN_TO_SPACE |
| HeapTypes.ShouldBePromoted | src/heap/heap-inl.h:422-427 | an address should be promoted when its page is below the age mark and either the age mark is outside the page (ContainsLimit) or the address precedes it |
| Heaps.Heap.View | src/heap/heap-inl.h:382 | the allocation top the memento lookup reads is the new-space linear area's top |
| Heaps.Heap.RecordWrite | src/heap/heap-inl.h:429-434 | the slot is appended exactly when the value is young and the container is an old heap object; otherwise the buffer is unchanged |
| Heaps.Heap.RecordWriteIntoCode | src/heap/heap-inl.h:436-440 | the slow path is taken, once, exactly when the value is young |
| Heaps.Heap.RecordFixedArrayElements | src/heap/heap-inl.h:442-449 | the store buffer gains exactly what a RecordWrite of each element in [offset, offset + length) would add, in index order; a non-positive length adds nothing |
| WriteBarrier.BulkBarrierIsPerElementBarrier | src/heap/heap-inl.h:442-449 | the bulk barrier, which tests the array's generation once, equals one RecordWrite per element |
| WriteBarrier.YoungSlotsExactly | src/heap/heap-inl.h:444-448 | an old array's entries are exactly the young elements' slots, each once, in strictly increasing order |
| WriteBarrier.ElementSlotMonotone | src/heap/heap-inl.h:447 | element slots increase with the index |
| WriteBarrier.ElementSlot | src/heap/heap-inl.h:447 | the slot of an element lies past the array header, a whole number of pointers from the array's start |
| Pretenuring.FindAllocationMemento | src/heap/heap-inl.h:460-519 | a found memento directly follows the object with its last word on the object's page; at runtime it is also not at the allocation top and is valid |
| Pretenuring.IsValidMemento | src/heap/heap-inl.h:511 | a memento is valid when its site word names a live allocation site |
| Pretenuring.MementoFoundExactlyWhen | src/heap/heap-inl.h:460-519 | a memento is found iff its last word is on the object's page, the next word is the memento map, the age-mark rule does not reject it, and at runtime it is not at top and is valid; a found memento directly follows the object |
| Pretenuring.FoundMementoOnObjectPage | src/heap/heap-inl.h:463-468 | both words of a found memento lie on the object's page |
| Pretenuring.MementoLookupReadsOnlyObjectPage | src/heap/heap-inl.h:460-492 | apart from the runtime validity check, which follows the site word to the allocation site (modelled as a set of live sites), the lookup's answer depends only on memory of the object's own page |
| Pretenuring.RuntimeLookupRefinesGCLookup | src/heap/heap-inl.h:498-514 | the runtime lookup only adds checks to the GC lookup, and rejects a memento at the allocation top |
| Pretenuring.AgeMarkRuleIsShouldBePromoted | src/heap/heap-inl.h:422-427 | for an object inside its page's area, the lookup's age-mark rule (Contains) and ShouldBePromoted (ContainsLimit) agree |
| Pretenuring.FeedbackAfterUpdate | src/heap/heap-inl.h:521-543 | an update keeps every key and never lowers a count, and raises any count by at most one |
| Pretenuring.FeedbackUpdateTouchesOneSite | src/heap/heap-inl.h:521-543 | the feedback map is unchanged unless pretenuring is on, the type is trackable and a GC memento is found; then exactly that memento's site gains one and nothing else changes |
| Pretenuring.FeedbackUpdateReadsOnlyObjectPage | src/heap/heap-inl.h:534-542 | the feedback produced depends only on memory of the object's page |
| Heaps.Heap.UpdateAllocationSite | src/heap/heap-inl.h:521-543 | on a private map for an object being evacuated, the map becomes the feedback the specification function gives |
| Heaps.Heap.RemoveAllocationSitePretenuringFeedback | src/heap/heap-inl.h:546-548 | only the site's key is erased from the global map; every other entry is kept |
| Heaps.Heap.RegisterExternalString | src/heap/heap-inl.h:363-365 | a young string joins the new-space list, any other the old-space list; the other list is kept |
| Heaps.ExternalStringTable.AddString | src/heap/heap-inl.h:556-563 | exactly one list grows, by that string, chosen by InNewSpace |
| Heaps.Heap.FinalizeExternalString | src/heap/heap-inl.h:368-380 | a present resource is disposed once and the field cleared; an absent one leaves the string unchanged, so a second call does nothing |
| Heaps.ExternalResource.Dispose | src/heap/heap-inl.h:377 | each disposal is recorded once |
| Counters.NextScriptIdAfter | src/heap/heap-inl.h:576-585 | the next id is always in [1, Smi::kMaxValue] |
| Counters.ScriptIdAfterCalls | src/heap/heap-inl.h:576-585 | after any number of calls the id is a small integer, and at least 1 after one call |
| Counters.ScriptIdsCountFromOne | src/heap/heap-inl.h:576-585 | from a fresh heap the n-th call returns n, up to Smi::kMaxValue, and the call after that returns 1 |
| Counters.ScriptIdsDistinctWithinCycle | src/heap/heap-inl.h:576-585 | the first Smi::kMaxValue ids are pairwise distinct |
| Heaps.Heap.NextScriptId | src/heap/heap-inl.h:576-585 | returns the stored next id, which is in [1, Smi::kMaxValue] |
| Heaps.Heap.GetNextTemplateSerialNumber | src/heap/heap-inl.h:587-591 | returns the stored serial number plus one and stores it |
| Heaps.Heap.UpdateNewSpaceAllocationCounter | src/heap/heap-inl.h:105-111 | the counter absorbs the bytes allocated in new space since the last GC |
| Heaps.Heap.NewSpaceAllocationCounter | src/heap/heap-inl.h:109-111 | the counter reads as the stored counter plus the bytes allocated in new space since the last GC; AllocateRaw's contract shows it grows by the size exactly on a new-space success |
| Heaps.AlwaysAllocateScope.constructor | src/heap/heap-inl.h:593-596 | opening a scope adds one to the scope count |
| Heaps.AlwaysAllocateScope.Close | src/heap/heap-inl.h:598-600 | closing a scope takes one from the scope count |

## Left out

- Heaps.Heap.AllocateRaw: the new-space branch returns early in the source and the other branches share one tail. Both do the same thing (hook on success, result passed on), so the model routes first and then runs one tail.
- Heaps.Heap.AllocateRaw: the DEBUG-only `allocation_timeout_` fault injection and its counters are not modelled. Neither are the handle- and heap-allocation permission checks.
- Heaps.Heap.SubAllocate: the real sub-allocators are not part of this model. In their place are a bump allocator over one linear area per space and a large-object space that maps a fresh page while a byte budget lasts. Free lists, page growth of paged spaces and the `AllocationAlignment` fill are not modelled, and alignment is ignored.
- `StringHasher::AddCharacterCore` is an uninterpreted function (`Instrumentation.Mixer`). The profiler, code logger, synthetic clock, digest printer and stack printer are event logs that record what they were given.
- Heaps.Heap.HashAllocation: under `verify_predictable` a zero `FLAG_dump_allocations_digest_at_alloc` would make the source divide by zero, so the model requires a non-zero interval. A negative interval is converted to unsigned as the code does.
- Heaps.Heap.OnMoveEvent: `IsSharedFunctionInfo()` of the target is a boolean parameter, since object maps are not modelled.
- Heaps.Heap.UpdateAllocationSite: the object's size (`SizeFromMap`) and `AllocationSite::CanTrack` are parameters. `AllocationMemento::IsValid` is membership of the site word in a set of live sites. Memory is a total function from addresses to words, so an uninitialized word is just some word.
- Heaps.Heap.RecordFixedArrayElements: requires the element range to lie inside the array, as `FixedArray::get` demands. Write-barrier callers and slot dereferencing are not modelled, and `RecordWriteIntoCodeSlow` is recorded as a log entry.
- Heaps.Heap.GetNextTemplateSerialNumber: requires the stored number to be below `Smi::kMaxValue`. The source does not check this. With 32-bit small integers `Smi::kMaxValue` is `INT_MAX`, so one step further `value() + 1` overflows a signed `int` before `Smi::FromInt` is reached.
- The DCHECK inside `Heap::InNewSpace` that young objects outside a GC are in to-space is about live objects, which the page-level model does not track.
- The `DCHECK(IsExternalString())` type checks are not modelled: strings carry no instance type here.
- Not part of this model:
  - the root, struct-map, string and symbol accessors and setters;
  - `paged_space`, `space`, and the allocation top and limit address getters;
  - `IsOneByte`, `ToBoolean` and `HashSeed`;
  - the internalized-string and fixed-array allocation helpers;
  - `DeoptMaybeTenuredAllocationSites`, `InOldSpace` and the `*Slow` containment checks;
  - `store_buffer_top_address`, `CopyBlock` and `Heap::isolate()`.

  They read object layouts or roots that the model does not contain, or they are raw-memory tricks.
- The heap is single-threaded here. Parallel feedback maps are separate `PretenuringFeedbackMap` objects, and merging them is not modelled.
