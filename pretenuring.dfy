/**
 * Allocation-memento lookup and the pretenuring feedback it feeds.
 *
 * Memory is read as raw words: a memento is two words directly after an
 * object, the allocation-memento map followed by the allocation site.
 */
module Pretenuring {
  import opened Wrappers
  import opened HeapTypes

  /** The word stored at each address (possibly stale, possibly uninitialized). */
  type Memory = Address -> nat

  /** AllocationSite pointers, as the raw words that key the feedback maps. */
  type Site = nat

  /** PretenuringFeedbackMap: allocation site to number of mementos found. */
  type Feedback = map<Site, nat>

  datatype FindMementoMode = ForGC | ForRuntime

  /** What the lookup reads from the heap besides the page table and memory. */
  datatype NewSpaceView = NewSpaceView(
    top: Address,              // the new-space allocation top
    toSpaceAgeMark: Address,   // age mark of the to-space semispace
    fromSpaceAgeMark: Address, // age mark of the from-space semispace
    mementoMap: nat,           // the allocation_memento_map root
    liveSites: set<Site>)      // allocation sites that are neither freed nor zombies

  /** The age mark of the semispace that owns a new-space page. */
  function OwnerAgeMark(page: PageMeta, ns: NewSpaceView): Address
  {
    if page.IsFlagSet(FromSpaceFlag) then ns.fromSpaceAgeMark else ns.toSpaceAgeMark
  }

  /** AllocationMemento::IsValid: the site word points at a live allocation site. */
  predicate IsValidMemento(mem: Memory, ns: NewSpaceView, memento: Address)
  {
    mem(memento + kPointerSize) in ns.liveSites
  }

  /**
   * Heap::FindAllocationMemento: the address of the memento trailing `obj`
   * (whose size, from its map, is `objectSize`), or None.
   */
  function FindAllocationMemento(
    mode: FindMementoMode, pages: PageTable, ns: NewSpaceView, mem: Memory,
    obj: Address, objectSize: nat): (r: Option<Address>)
    requires PageOf(obj) in pages
    ensures r.Some? ==> r.value == obj + objectSize && OnSamePage(obj, r.value + kPointerSize)
    ensures r.Some? && mode == ForRuntime ==> r.value != ns.top && IsValidMemento(mem, ns, r.value)
  {
    var mementoAddress := obj + objectSize;
    var lastMementoWord := mementoAddress + kPointerSize;
    var page := pages[PageOf(obj)];
    if !OnSamePage(obj, lastMementoWord) then None
    else if mem(mementoAddress) != ns.mementoMap then None
    else if page.IsFlagSet(BelowAgeMarkFlag)
         && (!page.Contains(OwnerAgeMark(page, ns)) || obj < OwnerAgeMark(page, ns)) then None
    else
      match mode
      case ForGC => Some(mementoAddress)
      case ForRuntime =>
        if mementoAddress != ns.top && IsValidMemento(mem, ns, mementoAddress) then Some(mementoAddress)
        else None
  }

  /** The age-mark rule under which a memento on a below-age-mark page is ignored. */
  predicate BelowAgeMark(page: PageMeta, ageMark: Address, obj: Address)
  {
    page.IsFlagSet(BelowAgeMarkFlag) && (!page.Contains(ageMark) || obj < ageMark)
  }

  /**
   * The lookup succeeds exactly when the memento's last word is on the
   * object's page, the word after the object is the memento map, the age-mark
   * rule does not reject it and, at runtime, the memento is not at the
   * allocation top and is valid. A found memento directly follows the object.
   */
  lemma MementoFoundExactlyWhen(
    mode: FindMementoMode, pages: PageTable, ns: NewSpaceView, mem: Memory,
    obj: Address, objectSize: nat)
    requires PageOf(obj) in pages
    ensures var page := pages[PageOf(obj)];
      var m := obj + objectSize;
      FindAllocationMemento(mode, pages, ns, mem, obj, objectSize).Some?
      <==>
      && OnSamePage(obj, m + kPointerSize)
      && mem(m) == ns.mementoMap
      && !BelowAgeMark(page, OwnerAgeMark(page, ns), obj)
      && (mode == ForRuntime ==> m != ns.top && IsValidMemento(mem, ns, m))
    ensures FindAllocationMemento(mode, pages, ns, mem, obj, objectSize).Some? ==>
      FindAllocationMemento(mode, pages, ns, mem, obj, objectSize).value == obj + objectSize
  {
  }

  /** A memento that is found lies, both its words, on the object's page. */
  lemma {:induction false} FoundMementoOnObjectPage(
    mode: FindMementoMode, pages: PageTable, ns: NewSpaceView, mem: Memory,
    obj: Address, objectSize: nat)
    requires PageOf(obj) in pages
    requires FindAllocationMemento(mode, pages, ns, mem, obj, objectSize).Some?
    ensures var m := FindAllocationMemento(mode, pages, ns, mem, obj, objectSize).value;
      OnSamePage(obj, m) && OnSamePage(obj, m + kPointerSize)
  {
    var m := obj + objectSize;
    OnSamePageBetween(obj, m, m + kPointerSize);
  }

  /** Two memories that hold the same words on one page. */
  ghost predicate AgreeOnPage(mem1: Memory, mem2: Memory, base: Address)
  {
    forall a :: PageOf(a) == base ==> mem1(a) == mem2(a)
  }

  /**
   * The lookup reads memory only on the object's own page: whatever lies on
   * other pages, and whether the word after a page end is mapped at all,
   * does not change its answer. The runtime validity check is the exception:
   * it follows the site word to the allocation site, which the model reduces
   * to membership of that word in the set of live sites.
   */
  lemma {:induction false} MementoLookupReadsOnlyObjectPage(
    mode: FindMementoMode, pages: PageTable, ns: NewSpaceView, mem1: Memory, mem2: Memory,
    obj: Address, objectSize: nat)
    requires PageOf(obj) in pages
    requires AgreeOnPage(mem1, mem2, PageOf(obj))
    ensures FindAllocationMemento(mode, pages, ns, mem1, obj, objectSize)
         == FindAllocationMemento(mode, pages, ns, mem2, obj, objectSize)
  {
    var m := obj + objectSize;
    if OnSamePage(obj, m + kPointerSize) {
      OnSamePageBetween(obj, m, m + kPointerSize);
      assert mem1(m) == mem2(m);
      assert mem1(m + kPointerSize) == mem2(m + kPointerSize);
    }
  }

  /**
   * The runtime lookup only adds checks to the GC lookup, and the top check
   * is one of them: a memento the GC lookup finds at the allocation top is
   * rejected at runtime.
   */
  lemma RuntimeLookupRefinesGCLookup(
    pages: PageTable, ns: NewSpaceView, mem: Memory, obj: Address, objectSize: nat)
    requires PageOf(obj) in pages
    ensures var rt := FindAllocationMemento(ForRuntime, pages, ns, mem, obj, objectSize);
      rt.Some? ==> rt == FindAllocationMemento(ForGC, pages, ns, mem, obj, objectSize)
    ensures obj + objectSize == ns.top ==>
      FindAllocationMemento(ForRuntime, pages, ns, mem, obj, objectSize).None?
  {
  }

  /**
   * On a page below the age mark, for an object inside the page's area, the
   * lookup's age-mark rule rejects the memento exactly when ShouldBePromoted
   * holds for the object with that age mark, although one uses Page::Contains
   * and the other Page::ContainsLimit.
   */
  lemma {:induction false} AgeMarkRuleIsShouldBePromoted(pages: PageTable, ageMark: Address, obj: Address)
    requires PageOf(obj) in pages
    requires pages[PageOf(obj)].Contains(obj)
    ensures BelowAgeMark(pages[PageOf(obj)], ageMark, obj) <==> ShouldBePromoted(pages, ageMark, obj)
  {
    var page := pages[PageOf(obj)];
    if page.IsFlagSet(BelowAgeMarkFlag) && ageMark == page.areaEnd {
      assert !page.Contains(ageMark) && obj < ageMark;
    }
  }

  /** operator[] on the feedback map: a missing site reads as zero. */
  function Count(feedback: Feedback, site: Site): nat
  {
    if site in feedback then feedback[site] else 0
  }

  /**
   * Heap::UpdateAllocationSite on a feedback map: with pretenuring enabled
   * and a trackable instance type, a memento found by the GC lookup adds one
   * to its site's count.
   */
  function FeedbackAfterUpdate(
    pretenuring: bool, trackable: bool, pages: PageTable, ns: NewSpaceView, mem: Memory,
    obj: Address, objectSize: nat, feedback: Feedback): (r: Feedback)
    requires PageOf(obj) in pages
    ensures feedback.Keys <= r.Keys
    ensures forall k :: Count(feedback, k) <= Count(r, k) <= Count(feedback, k) + 1
  {
    if !pretenuring || !trackable then feedback
    else
      match FindAllocationMemento(ForGC, pages, ns, mem, obj, objectSize)
      case None => feedback
      case Some(m) =>
        var site := mem(m + kPointerSize);
        feedback[site := Count(feedback, site) + 1]
  }

  /**
   * The update leaves the map as it is unless pretenuring is on, the type is
   * trackable and a memento is found; then it adds one to the count of that
   * memento's site and changes no other key.
   */
  lemma FeedbackUpdateTouchesOneSite(
    pretenuring: bool, trackable: bool, pages: PageTable, ns: NewSpaceView, mem: Memory,
    obj: Address, objectSize: nat, feedback: Feedback)
    requires PageOf(obj) in pages
    ensures var found := FindAllocationMemento(ForGC, pages, ns, mem, obj, objectSize);
      var after := FeedbackAfterUpdate(pretenuring, trackable, pages, ns, mem, obj, objectSize, feedback);
      && (after == feedback <==> !(pretenuring && trackable && found.Some?))
      && (pretenuring && trackable && found.Some? ==>
            var site := mem(found.value + kPointerSize);
            && Count(after, site) == Count(feedback, site) + 1
            && after.Keys == feedback.Keys + {site}
            && forall k :: k in feedback && k != site ==> after[k] == feedback[k])
  {
    var found := FindAllocationMemento(ForGC, pages, ns, mem, obj, objectSize);
    if pretenuring && trackable && found.Some? {
      var site := mem(found.value + kPointerSize);
      var after := FeedbackAfterUpdate(pretenuring, trackable, pages, ns, mem, obj, objectSize, feedback);
      assert Count(after, site) != Count(feedback, site);
    }
  }

  /** The feedback an update produces depends only on the words of the object's page. */
  lemma {:induction false} FeedbackUpdateReadsOnlyObjectPage(
    pretenuring: bool, trackable: bool, pages: PageTable, ns: NewSpaceView, mem1: Memory, mem2: Memory,
    obj: Address, objectSize: nat, feedback: Feedback)
    requires PageOf(obj) in pages
    requires AgreeOnPage(mem1, mem2, PageOf(obj))
    ensures FeedbackAfterUpdate(pretenuring, trackable, pages, ns, mem1, obj, objectSize, feedback)
         == FeedbackAfterUpdate(pretenuring, trackable, pages, ns, mem2, obj, objectSize, feedback)
  {
    MementoLookupReadsOnlyObjectPage(ForGC, pages, ns, mem1, mem2, obj, objectSize);
    var found := FindAllocationMemento(ForGC, pages, ns, mem1, obj, objectSize);
    if found.Some? {
      FoundMementoOnObjectPage(ForGC, pages, ns, mem1, obj, objectSize);
      assert mem1(found.value + kPointerSize) == mem2(found.value + kPointerSize);
    }
  }
}
