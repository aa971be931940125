/**
 * The result of a raw allocation and the dispatcher's choice of
 * sub-allocator for a (size, space) request.
 */
module Allocation {
  import opened HeapTypes

  /** AllocationResult: either the space to collect before retrying, or the new object. */
  datatype AllocationResult = Retry(space: Space) | Success(address: Address)
  {
    /** AllocationResult::RetrySpace; only meaningful on a retry. */
    function RetrySpace(): (s: Space)
      requires Retry?
      ensures AllocationResult.Retry(s) == this
    {
      space
    }

    /** AllocationResult::ToObjectChecked; a retry here is a fatal error. */
    function ToObjectChecked(): (a: Address)
      requires Success?
      ensures AllocationResult.Success(a) == this
    {
      address
    }
  }

  datatype AllocationAlignment = WordAligned | DoubleAligned | DoubleUnaligned

  /** Which sub-allocator serves a request. */
  datatype SubAllocator =
    | NewSpaceAllocator
    | OldSpaceAllocator
    | CodeSpaceAllocator
    | MapSpaceAllocator
    | LargeObjectAllocator(executable: bool)

  /** The space whose pages a sub-allocator hands out, and which a retry names. */
  function ResolvedSpace(a: SubAllocator): Space
  {
    match a
    case NewSpaceAllocator => NewSpace
    case OldSpaceAllocator => OldSpace
    case CodeSpaceAllocator => CodeSpace
    case MapSpaceAllocator => MapSpace
    case LargeObjectAllocator(_) => LoSpace
  }

  /**
   * A direct large-object request must already be large; every other
   * (size, space) pair is a request the dispatcher accepts.
   */
  predicate ValidRequest(size: nat, space: Space)
  {
    space == LoSpace ==> size > kMaxRegularHeapObjectSize
  }

  /**
   * The dispatcher's routing decision in Heap::AllocateRaw. New and old space
   * send objects over kMaxRegularHeapObjectSize to non-executable large pages,
   * code space sends objects that do not fit a code page's area to executable
   * large pages, and map space takes every size unaligned.
   */
  function Route(size: nat, space: Space, codeAreaSize: nat): (a: SubAllocator)
    requires ValidRequest(size, space)
    ensures a.LargeObjectAllocator? <==>
      || (space in {NewSpace, OldSpace, LoSpace} && size > kMaxRegularHeapObjectSize)
      || (space == CodeSpace && size > codeAreaSize)
    ensures a.LargeObjectAllocator? ==> (a.executable <==> space == CodeSpace)
    ensures !a.LargeObjectAllocator? ==> ResolvedSpace(a) == space
    ensures ResolvedSpace(a) == NewSpace <==> space == NewSpace && size <= kMaxRegularHeapObjectSize
  {
    var large := size > kMaxRegularHeapObjectSize;
    match space
    case NewSpace => if large then LargeObjectAllocator(false) else NewSpaceAllocator
    case OldSpace => if large then LargeObjectAllocator(false) else OldSpaceAllocator
    case CodeSpace => if size <= codeAreaSize then CodeSpaceAllocator else LargeObjectAllocator(true)
    case LoSpace => LargeObjectAllocator(false)
    case MapSpace => MapSpaceAllocator
  }
}
