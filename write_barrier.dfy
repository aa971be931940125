/**
 * What the generational write barrier records: the store-buffer entries
 * produced by one pointer store and by the bulk fixed-array variant.
 */
module WriteBarrier {
  import opened HeapTypes

  /** FixedArray::kHeaderSize: the map word and the length word. */
  const FixedArrayHeaderSize: nat := 16

  /** FixedArray::RawFieldOfElementAt: the slot address of element `index`. */
  function ElementSlot(fixedArray: Address, index: nat): (slot: Address)
    ensures slot >= fixedArray + FixedArrayHeaderSize
    ensures (slot - fixedArray) % kPointerSize == 0
  {
    fixedArray + FixedArrayHeaderSize + index * kPointerSize
  }

  /** Element slots are laid out in increasing index order. */
  lemma ElementSlotMonotone(fixedArray: Address, i: nat, j: nat)
    requires i < j
    ensures ElementSlot(fixedArray, i) < ElementSlot(fixedArray, j)
  {
  }

  /**
   * A store of `value` into `container` creates an old-to-new edge: the value
   * is young, the container is a heap object and the container is old.
   */
  predicate IsOldToNew(pages: PageTable, container: Value, value: Value)
    requires Known(pages, container) && Known(pages, value)
  {
    InNewSpace(pages, value) && container.HeapObject? && !InNewSpace(pages, container)
  }

  /** The entries Heap::RecordWrite adds for one store. */
  function RecordWriteEntries(pages: PageTable, container: Value, slot: Address, value: Value): seq<Address>
    requires Known(pages, container) && Known(pages, value)
  {
    if IsOldToNew(pages, container, value) then [slot] else []
  }

  /** Every element of the array is a value the heap can classify. */
  predicate KnownElements(pages: PageTable, elements: seq<Value>)
  {
    forall i :: 0 <= i < |elements| ==> Known(pages, elements[i])
  }

  /** The slots of the young elements in [lo, hi), in increasing index order. */
  function YoungSlots(pages: PageTable, fixedArray: Address, elements: seq<Value>, lo: nat, hi: nat): seq<Address>
    requires lo <= hi <= |elements| && KnownElements(pages, elements)
    decreases hi - lo
  {
    if lo == hi then []
    else
      YoungSlots(pages, fixedArray, elements, lo, hi - 1)
      + (if InNewSpace(pages, elements[hi - 1]) then [ElementSlot(fixedArray, hi - 1)] else [])
  }

  /**
   * The entries Heap::RecordFixedArrayElements adds for elements
   * [offset, offset + count): none for a young array, otherwise the young
   * elements' slots.
   */
  function FixedArrayEntries(pages: PageTable, fixedArray: Address, elements: seq<Value>, offset: nat, count: nat): seq<Address>
    requires offset + count <= |elements| && KnownElements(pages, elements)
    requires PageOf(fixedArray) in pages
  {
    if InNewSpace(pages, HeapObject(fixedArray)) then [] else YoungSlots(pages, fixedArray, elements, offset, offset + count)
  }

  /** Reference: one RecordWrite per element, in increasing index order. */
  function PerElementEntries(pages: PageTable, fixedArray: Address, elements: seq<Value>, lo: nat, hi: nat): seq<Address>
    requires lo <= hi <= |elements| && KnownElements(pages, elements)
    requires PageOf(fixedArray) in pages
    decreases hi - lo
  {
    if lo == hi then []
    else
      PerElementEntries(pages, fixedArray, elements, lo, hi - 1)
      + RecordWriteEntries(pages, HeapObject(fixedArray), ElementSlot(fixedArray, hi - 1), elements[hi - 1])
  }

  /**
   * The bulk barrier, which tests the array's generation once, records
   * exactly what a RecordWrite of every element in the range would.
   */
  lemma {:induction false} BulkBarrierIsPerElementBarrier(
    pages: PageTable, fixedArray: Address, elements: seq<Value>, lo: nat, hi: nat)
    requires lo <= hi <= |elements| && KnownElements(pages, elements)
    requires PageOf(fixedArray) in pages
    ensures FixedArrayEntries(pages, fixedArray, elements, lo, hi - lo) == PerElementEntries(pages, fixedArray, elements, lo, hi)
    decreases hi - lo
  {
    if lo < hi {
      BulkBarrierIsPerElementBarrier(pages, fixedArray, elements, lo, hi - 1);
      var container := HeapObject(fixedArray);
      var last := RecordWriteEntries(pages, container, ElementSlot(fixedArray, hi - 1), elements[hi - 1]);
      assert PerElementEntries(pages, fixedArray, elements, lo, hi)
          == PerElementEntries(pages, fixedArray, elements, lo, hi - 1) + last;
      if InNewSpace(pages, container) {
        assert last == [];
      } else {
        assert YoungSlots(pages, fixedArray, elements, lo, hi)
            == YoungSlots(pages, fixedArray, elements, lo, hi - 1) + last;
      }
    }
  }

  predicate StrictlyIncreasing(s: seq<Address>)
  {
    forall j, k :: 0 <= j < k < |s| ==> s[j] < s[k]
  }

  /**
   * YoungSlots lists exactly the slots of the young elements in [lo, hi),
   * each once, in strictly increasing address order.
   */
  lemma {:induction false} YoungSlotsExactly(
    pages: PageTable, fixedArray: Address, elements: seq<Value>, lo: nat, hi: nat)
    requires lo <= hi <= |elements| && KnownElements(pages, elements)
    ensures forall i :: lo <= i < hi ==>
      (InNewSpace(pages, elements[i]) <==> ElementSlot(fixedArray, i) in YoungSlots(pages, fixedArray, elements, lo, hi))
    ensures forall s :: s in YoungSlots(pages, fixedArray, elements, lo, hi) ==>
      exists i :: lo <= i < hi && s == ElementSlot(fixedArray, i) && InNewSpace(pages, elements[i])
    ensures StrictlyIncreasing(YoungSlots(pages, fixedArray, elements, lo, hi))
    decreases hi - lo
  {
    if lo < hi {
      var r0 := YoungSlots(pages, fixedArray, elements, lo, hi - 1);
      YoungSlotsExactly(pages, fixedArray, elements, lo, hi - 1);
      var r := YoungSlots(pages, fixedArray, elements, lo, hi);
      forall s | s in r0
        ensures s < ElementSlot(fixedArray, hi - 1)
      {
        var i :| lo <= i < hi - 1 && s == ElementSlot(fixedArray, i) && InNewSpace(pages, elements[i]);
        ElementSlotMonotone(fixedArray, i, hi - 1);
      }
      forall i | lo <= i < hi - 1
        ensures ElementSlot(fixedArray, i) != ElementSlot(fixedArray, hi - 1)
      {
        ElementSlotMonotone(fixedArray, i, hi - 1);
      }
      if InNewSpace(pages, elements[hi - 1]) {
        assert r == r0 + [ElementSlot(fixedArray, hi - 1)];
        forall j, k | 0 <= j < k < |r|
          ensures r[j] < r[k]
        {
          assert r[j] == r0[j] && r[j] in r0;
          if k < |r| - 1 {
            assert r[k] == r0[k];
          }
        }
      } else {
        assert r == r0;
      }
    }
  }
}
