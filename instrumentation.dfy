/**
 * The allocation and move hooks: the event counter, the deterministic
 * rolling hash used to check that two runs allocate identically, and the
 * notifications handed to the profiler, the logger and the stack printer.
 */
module Instrumentation {
  import opened HeapTypes

  /** A uint16_t. */
  type u16 = x: int | 0 <= x < 0x1_0000

  /** StringHasher::AddCharacterCore, left uninterpreted. */
  type Mixer = (u32, u16) -> u32

  /**
   * The 32-bit word Heap::UpdateAllocationsHash(HeapObject*) folds: the offset
   * of the object in its page OR'd with the page owner's space id shifted
   * left by kPageSizeBits. The offset is below 2^kPageSizeBits, so the two
   * bit ranges are disjoint and the OR is a sum; the space id has
   * kSpaceTagSize = 3 bits, so the word fits 32 bits. Offset and space can
   * both be read back from it.
   */
  function PackSpaceOffset(offset: nat, space: Space): (w: u32)
    requires offset < PageSize
    ensures w % PageSize == offset
    ensures w / PageSize == SpaceId(space)
  {
    offset + SpaceId(space) * PageSize
  }

  /** The hash word for an object, from its page offset and its page's owner. */
  function ObjectHashWord(pages: PageTable, obj: Address): u32
    requires PageOf(obj) in pages
  {
    PackSpaceOffset(obj - PageOf(obj), pages[PageOf(obj)].owner)
  }

  lemma SpaceIdInjective(s1: Space, s2: Space)
    requires SpaceId(s1) == SpaceId(s2)
    ensures s1 == s2
  {
  }

  /**
   * Two objects get the same hash word exactly when they sit at the same
   * offset on pages owned by the same space: the hash does not see where
   * pages were mapped.
   */
  lemma {:induction false} ObjectHashWordIsPageRelative(
    pages1: PageTable, obj1: Address, pages2: PageTable, obj2: Address)
    requires PageOf(obj1) in pages1 && PageOf(obj2) in pages2
    ensures ObjectHashWord(pages1, obj1) == ObjectHashWord(pages2, obj2)
        <==> obj1 % PageSize == obj2 % PageSize && pages1[PageOf(obj1)].owner == pages2[PageOf(obj2)].owner
  {
    var w1, w2 := ObjectHashWord(pages1, obj1), ObjectHashWord(pages2, obj2);
    if w1 == w2 {
      SpaceIdInjective(pages1[PageOf(obj1)].owner, pages2[PageOf(obj2)].owner);
    }
  }

  /** static_cast<uint16_t>(value) and static_cast<uint16_t>(value >> 16). */
  function Low16(v: u32): u16 { v % 0x1_0000 }
  function High16(v: u32): u16 { v / 0x1_0000 }

  /**
   * The two halves together are the whole word, so folding them loses
   * nothing; a single word splits into its low half, then its high half.
   */
  lemma HalvesMakeWord(v: u32)
    ensures High16(v) * 0x1_0000 + Low16(v) == v
    ensures Halves([v]) == [Low16(v), High16(v)]
  {
  }

  /** Heap::UpdateAllocationsHash(uint32_t): the low half, then the high half. */
  function FoldWord(mix: Mixer, hash: u32, v: u32): u32
  {
    mix(mix(hash, Low16(v)), High16(v))
  }

  /** Folding a sequence of words, first to last. */
  function FoldWords(mix: Mixer, hash: u32, ws: seq<u32>): u32
    decreases |ws|
  {
    if ws == [] then hash else FoldWords(mix, FoldWord(mix, hash, ws[0]), ws[1..])
  }

  /** A string hasher run over 16-bit characters, first to last. */
  function FoldChars(mix: Mixer, hash: u32, cs: seq<u16>): u32
    decreases |cs|
  {
    if cs == [] then hash else FoldChars(mix, mix(hash, cs[0]), cs[1..])
  }

  /** The 16-bit characters of a word sequence, each word low half first. */
  function Halves(ws: seq<u32>): (cs: seq<u16>)
    ensures |cs| == 2 * |ws|
    decreases |ws|
  {
    if ws == [] then [] else [Low16(ws[0]), High16(ws[0])] + Halves(ws[1..])
  }

  /**
   * The allocations hash of a word sequence is the string hash of the
   * sequence's 16-bit halves, low half before high half, in word order.
   */
  lemma {:induction false} FoldWordsIsStringHash(mix: Mixer, hash: u32, ws: seq<u32>)
    ensures FoldWords(mix, hash, ws) == FoldChars(mix, hash, Halves(ws))
    decreases |ws|
  {
    if ws != [] {
      var cs := Halves(ws);
      assert cs[0] == Low16(ws[0]) && cs[1] == High16(ws[0]);
      assert cs[1..][1..] == Halves(ws[1..]);
      FoldWordsIsStringHash(mix, FoldWord(mix, hash, ws[0]), ws[1..]);
    }
  }

  /** Folding a concatenation is folding one part after the other. */
  lemma {:induction false} FoldWordsAppend(mix: Mixer, hash: u32, a: seq<u32>, b: seq<u32>)
    ensures FoldWords(mix, hash, a + b) == FoldWords(mix, FoldWords(mix, hash, a), b)
    decreases |a|
  {
    if a != [] {
      var h1 := FoldWord(mix, hash, a[0]);
      assert (a + b)[0] == a[0] && (a + b)[1..] == a[1..] + b;
      FoldWordsAppend(mix, h1, a[1..], b);
    } else {
      assert a + b == b;
    }
  }

  /** What one hook folds into the hash. */
  datatype HashedEvent =
    | AllocationHashed(location: u32, size: u32)
    | MoveHashed(source: u32, target: u32, size: u32)

  /** The words of one event, in folding order: source before target before size. */
  function EventWords(e: HashedEvent): seq<u32>
  {
    match e
    case AllocationHashed(location, size) => [location, size]
    case MoveHashed(source, target, size) => [source, target, size]
  }

  function EventsWords(es: seq<HashedEvent>): seq<u32>
    decreases |es|
  {
    if es == [] then [] else EventsWords(es[..|es| - 1]) + EventWords(es[|es| - 1])
  }

  /** The rolling hash after a sequence of events, from the initial hash. */
  function Digest(mix: Mixer, initial: u32, es: seq<HashedEvent>): u32
  {
    FoldWords(mix, initial, EventsWords(es))
  }

  /** One more event folds that event's words into the previous digest. */
  lemma DigestExtend(mix: Mixer, initial: u32, es: seq<HashedEvent>, e: HashedEvent)
    ensures Digest(mix, initial, es + [e]) == FoldWords(mix, Digest(mix, initial, es), EventWords(e))
  {
    assert (es + [e])[..|es|] == es;
    FoldWordsAppend(mix, initial, EventsWords(es), EventWords(e));
  }

  /** Profiler notifications. */
  datatype ProfilerEvent =
    | AllocationEvent(address: Address, size: i32)
    | ObjectMoveEvent(from: Address, to: Address, size: i32)

  /** Logger notifications. */
  datatype CodeEvent = SharedFunctionInfoMoveEvent(from: Address, to: Address)

  /** Everything the hooks change, and what they hand to their collaborators. */
  datatype InstrState = InstrState(
    allocationsCount: u32,            // allocations_count_
    rawHash: u32,                    // raw_allocations_hash_
    hashed: seq<HashedEvent>,         // the events folded into rawHash so far
    timeRequests: nat,                // MonotonicallyIncreasingTimeInMs calls
    digestDumps: seq<u32>,           // PrintAllocationsHash calls, with the hash printed
    stackTraces: seq<u32>,            // PrintStack calls, with the counter at that point
    profilerEvents: seq<ProfilerEvent>,
    codeEvents: seq<CodeEvent>)

  /** The digest interval as the unsigned modulus the counter is reduced by. */
  predicate DigestDue(flags: Flags, count: u32)
    requires flags.dumpAllocationsDigestAtAlloc != 0
  {
    count % AsUint32(flags.dumpAllocationsDigestAtAlloc) == 0
  }

  /** The hash after folding one event's words, written out word by word. */
  function FoldEvent(mix: Mixer, hash: u32, e: HashedEvent): u32
  {
    match e
    case AllocationHashed(location, size) => FoldWord(mix, FoldWord(mix, hash, location), size)
    case MoveHashed(source, target, size) => FoldWord(mix, FoldWord(mix, FoldWord(mix, hash, source), target), size)
  }

  /** Folding an event word by word is folding its word sequence. */
  lemma FoldEventIsFoldWords(mix: Mixer, hash: u32, e: HashedEvent)
    ensures FoldEvent(mix, hash, e) == FoldWords(mix, hash, EventWords(e))
  {
    match e
    case AllocationHashed(location, size) => FoldTwoWords(mix, hash, location, size);
    case MoveHashed(source, target, size) => FoldThreeWords(mix, hash, source, target, size);
  }

  /** The verify_predictable part of both hooks. */
  function PredictableStep(mix: Mixer, flags: Flags, s: InstrState, e: HashedEvent): InstrState
    requires flags.dumpAllocationsDigestAtAlloc != 0
  {
    var count := Wrap32(s.allocationsCount + 1);
    var hash := FoldEvent(mix, s.rawHash, e);
    s.(allocationsCount := count,
       timeRequests := s.timeRequests + 1,
       rawHash := hash,
       hashed := s.hashed + [e],
       digestDumps := if DigestDue(flags, count) then s.digestDumps + [hash] else s.digestDumps)
  }

  /** A state that differs from `s` exactly as the predictable step says is that step's result. */
  lemma PredictableStepByFields(mix: Mixer, flags: Flags, s: InstrState, e: HashedEvent, r: InstrState)
    requires flags.dumpAllocationsDigestAtAlloc != 0
    requires r.allocationsCount == Wrap32(s.allocationsCount + 1)
    requires r.timeRequests == s.timeRequests + 1
    requires r.rawHash == FoldEvent(mix, s.rawHash, e)
    requires r.hashed == s.hashed + [e]
    requires r.digestDumps == if DigestDue(flags, r.allocationsCount) then s.digestDumps + [r.rawHash] else s.digestDumps
    requires r.stackTraces == s.stackTraces && r.profilerEvents == s.profilerEvents && r.codeEvents == s.codeEvents
    ensures r == PredictableStep(mix, flags, s, e)
  {
  }

  /** The profiler hears of an allocation when it tracks allocations. */
  function ProfileAllocation(trackingAllocations: bool, s: InstrState, obj: Address, size: i32): InstrState
  {
    if trackingAllocations then s.(profilerEvents := s.profilerEvents + [AllocationEvent(obj, size)]) else s
  }

  /**
   * The stack-trace part of the allocation hook: count the event unless
   * verify_predictable already did, and print a stack when the count is a
   * multiple of the interval.
   */
  function TraceAllocationStack(flags: Flags, s: InstrState): InstrState
  {
    if flags.traceAllocationStackInterval > 0 then
      var count := if flags.verifyPredictable then s.allocationsCount else Wrap32(s.allocationsCount + 1);
      var due := count % flags.traceAllocationStackInterval as int == 0;
      s.(allocationsCount := count, stackTraces := if due then s.stackTraces + [count] else s.stackTraces)
    else s
  }

  /** Heap::OnAllocationEvent for an object whose hash word is `location`. */
  function AllocationEventEffect(
    mix: Mixer, flags: Flags, trackingAllocations: bool, s: InstrState,
    obj: Address, location: u32, size: i32): InstrState
    requires flags.verifyPredictable ==> flags.dumpAllocationsDigestAtAlloc != 0
  {
    var s1 := ProfileAllocation(trackingAllocations, s, obj, size);
    var s2 :=
      if flags.verifyPredictable then PredictableStep(mix, flags, s1, AllocationHashed(location, AsUint32(size)))
      else s1;
    TraceAllocationStack(flags, s2)
  }

  /** The allocation hook is its three stages in order. */
  lemma AllocationEventStages(
    mix: Mixer, flags: Flags, trackingAllocations: bool, s: InstrState,
    obj: Address, location: u32, size: i32, s1: InstrState, s2: InstrState)
    requires flags.verifyPredictable ==> flags.dumpAllocationsDigestAtAlloc != 0
    requires s1 == ProfileAllocation(trackingAllocations, s, obj, size)
    requires s2 == if flags.verifyPredictable then PredictableStep(mix, flags, s1, AllocationHashed(location, AsUint32(size))) else s1
    ensures AllocationEventEffect(mix, flags, trackingAllocations, s, obj, location, size) == TraceAllocationStack(flags, s2)
  {
  }

  /** The profiler hears of a move when it tracks object moves. */
  function ProfileMove(trackingMoves: bool, s: InstrState, target: Address, source: Address, size: i32): InstrState
  {
    if trackingMoves then s.(profilerEvents := s.profilerEvents + [ObjectMoveEvent(source, target, size)]) else s
  }

  /** The code logger hears of a moved SharedFunctionInfo. */
  function LogMove(targetIsSharedFunctionInfo: bool, s: InstrState, target: Address, source: Address): InstrState
  {
    if targetIsSharedFunctionInfo then s.(codeEvents := s.codeEvents + [SharedFunctionInfoMoveEvent(source, target)]) else s
  }

  /** Heap::OnMoveEvent for hash words `sourceWord` and `targetWord`. */
  function MoveEventEffect(
    mix: Mixer, flags: Flags, trackingMoves: bool, s: InstrState,
    target: Address, source: Address, targetIsSharedFunctionInfo: bool,
    targetWord: u32, sourceWord: u32, size: i32): InstrState
    requires flags.verifyPredictable ==> flags.dumpAllocationsDigestAtAlloc != 0
  {
    var s2 := LogMove(targetIsSharedFunctionInfo, ProfileMove(trackingMoves, s, target, source, size), target, source);
    if flags.verifyPredictable then PredictableStep(mix, flags, s2, MoveHashed(sourceWord, targetWord, AsUint32(size)))
    else s2
  }

  /**
   * The hook state agrees with its event history: the hash is the digest of
   * the events folded since `initialHash`, under verify_predictable the
   * counter has advanced once per event (modulo 2^32) from `initialCount`,
   * and without it nothing has been folded.
   */
  predicate Consistent(mix: Mixer, flags: Flags, initialHash: u32, initialCount: u32, s: InstrState)
  {
    && s.rawHash == Digest(mix, initialHash, s.hashed)
    && (flags.verifyPredictable ==> s.allocationsCount == Wrap32(initialCount + |s.hashed|))
    && (!flags.verifyPredictable ==> s.hashed == [])
  }

  lemma Wrap32Step(c0: nat, n: nat)
    ensures Wrap32(Wrap32(c0 + n) + 1) == Wrap32(c0 + (n + 1))
  {
    var q := (c0 + n) / TwoTo32;
    assert c0 + n == q * TwoTo32 + Wrap32(c0 + n);
    assert c0 + (n + 1) == q * TwoTo32 + (Wrap32(c0 + n) + 1);
  }

  lemma {:induction false} PredictableStepExtends(
    mix: Mixer, flags: Flags, initialHash: u32, initialCount: u32, s: InstrState, e: HashedEvent)
    requires flags.verifyPredictable && flags.dumpAllocationsDigestAtAlloc != 0
    requires Consistent(mix, flags, initialHash, initialCount, s)
    ensures Consistent(mix, flags, initialHash, initialCount, PredictableStep(mix, flags, s, e))
  {
    DigestExtend(mix, initialHash, s.hashed, e);
    FoldEventIsFoldWords(mix, s.rawHash, e);
    Wrap32Step(initialCount, |s.hashed|);
  }

  /**
   * An allocation event keeps the hook state consistent with its history.
   * Under verify_predictable it folds exactly one allocation event (its
   * location word, then its size) and advances the counter once; otherwise
   * the hash and the history stay as they were. The profiler hears of the
   * allocation exactly when it tracks allocations.
   */
  lemma {:induction false} AllocationEventFoldsOneEvent(
    mix: Mixer, flags: Flags, initialHash: u32, initialCount: u32, trackingAllocations: bool,
    s: InstrState, obj: Address, location: u32, size: i32)
    requires flags.verifyPredictable ==> flags.dumpAllocationsDigestAtAlloc != 0
    requires Consistent(mix, flags, initialHash, initialCount, s)
    ensures var r := AllocationEventEffect(mix, flags, trackingAllocations, s, obj, location, size);
      && Consistent(mix, flags, initialHash, initialCount, r)
      && (flags.verifyPredictable ==>
            && r.hashed == s.hashed + [AllocationHashed(location, AsUint32(size))]
            && r.rawHash == FoldWord(mix, FoldWord(mix, s.rawHash, location), AsUint32(size))
            && r.allocationsCount == Wrap32(s.allocationsCount + 1))
      && (!flags.verifyPredictable ==> r.rawHash == s.rawHash)
      && r.profilerEvents == s.profilerEvents + (if trackingAllocations then [AllocationEvent(obj, size)] else [])
  {
    var s1 := if trackingAllocations then s.(profilerEvents := s.profilerEvents + [AllocationEvent(obj, size)]) else s;
    var r := AllocationEventEffect(mix, flags, trackingAllocations, s, obj, location, size);
    if flags.verifyPredictable {
      var e := AllocationHashed(location, AsUint32(size));
      var s2 := PredictableStep(mix, flags, s1, e);
      PredictableStepExtends(mix, flags, initialHash, initialCount, s1, e);
      assert r.hashed == s2.hashed && r.rawHash == s2.rawHash && r.allocationsCount == s2.allocationsCount;
    } else {
      assert r.hashed == s1.hashed && r.rawHash == s1.rawHash;
    }
  }

  lemma FoldTwoWords(mix: Mixer, hash: u32, v1: u32, v2: u32)
    ensures FoldWords(mix, hash, [v1, v2]) == FoldWord(mix, FoldWord(mix, hash, v1), v2)
  {
    var h1 := FoldWord(mix, hash, v1);
    assert [v1, v2][1..] == [v2];
    assert FoldWords(mix, hash, [v1, v2]) == FoldWords(mix, h1, [v2]);
    assert [v2][1..] == [];
    assert FoldWords(mix, h1, [v2]) == FoldWords(mix, FoldWord(mix, h1, v2), []);
  }

  lemma FoldThreeWords(mix: Mixer, hash: u32, v1: u32, v2: u32, v3: u32)
    ensures FoldWords(mix, hash, [v1, v2, v3]) == FoldWord(mix, FoldWord(mix, FoldWord(mix, hash, v1), v2), v3)
  {
    var h1 := FoldWord(mix, hash, v1);
    assert [v1, v2, v3][1..] == [v2, v3];
    assert FoldWords(mix, hash, [v1, v2, v3]) == FoldWords(mix, h1, [v2, v3]);
    FoldTwoWords(mix, h1, v2, v3);
  }

  /**
   * A move event keeps the hook state consistent with its history. Under
   * verify_predictable it folds the source word, the target word and the
   * size, in that order, and advances the counter once; otherwise the hash
   * stays as it was.
   */
  lemma {:induction false} MoveEventFoldsOneEvent(
    mix: Mixer, flags: Flags, initialHash: u32, initialCount: u32, trackingMoves: bool,
    s: InstrState, target: Address, source: Address, targetIsSharedFunctionInfo: bool,
    targetWord: u32, sourceWord: u32, size: i32)
    requires flags.verifyPredictable ==> flags.dumpAllocationsDigestAtAlloc != 0
    requires Consistent(mix, flags, initialHash, initialCount, s)
    ensures var r := MoveEventEffect(mix, flags, trackingMoves, s, target, source, targetIsSharedFunctionInfo,
                                     targetWord, sourceWord, size);
      && Consistent(mix, flags, initialHash, initialCount, r)
      && (flags.verifyPredictable ==>
            && r.hashed == s.hashed + [MoveHashed(sourceWord, targetWord, AsUint32(size))]
            && r.allocationsCount == Wrap32(s.allocationsCount + 1))
      && (!flags.verifyPredictable ==> r.rawHash == s.rawHash && r.allocationsCount == s.allocationsCount)
  {
    var s2 := LogMove(targetIsSharedFunctionInfo, ProfileMove(trackingMoves, s, target, source, size), target, source);
    if flags.verifyPredictable {
      PredictableStepExtends(mix, flags, initialHash, initialCount, s2,
                             MoveHashed(sourceWord, targetWord, AsUint32(size)));
    }
  }

  /** One call of a hook, with what it read: the hash words of the objects and whether the profiler listens. */
  datatype HookCall =
    | AllocationCall(obj: Address, location: u32, size: i32, profiled: bool)
    | MoveCall(target: Address, source: Address, targetIsSharedFunctionInfo: bool,
               targetWord: u32, sourceWord: u32, size: i32, profiled: bool)

  /** What one hook call does to the hook state. */
  function HookEffect(mix: Mixer, flags: Flags, s: InstrState, c: HookCall): InstrState
    requires flags.verifyPredictable ==> flags.dumpAllocationsDigestAtAlloc != 0
  {
    match c
    case AllocationCall(obj, location, size, profiled) =>
      AllocationEventEffect(mix, flags, profiled, s, obj, location, size)
    case MoveCall(target, source, isSharedFunctionInfo, targetWord, sourceWord, size, profiled) =>
      MoveEventEffect(mix, flags, profiled, s, target, source, isSharedFunctionInfo, targetWord, sourceWord, size)
  }

  /** The hook state after a sequence of hook calls, first to last. */
  function Replay(mix: Mixer, flags: Flags, s: InstrState, calls: seq<HookCall>): InstrState
    requires flags.verifyPredictable ==> flags.dumpAllocationsDigestAtAlloc != 0
    decreases |calls|
  {
    if calls == [] then s
    else HookEffect(mix, flags, Replay(mix, flags, s, calls[..|calls| - 1]), calls[|calls| - 1])
  }

  /**
   * A trace of hook states for a sequence of calls: one state more than
   * calls, and each call takes the state before it to the state after it.
   */
  ghost predicate Traced(mix: Mixer, flags: Flags, trace: seq<InstrState>, calls: seq<HookCall>)
  {
    && (flags.verifyPredictable ==> flags.dumpAllocationsDigestAtAlloc != 0)
    && |trace| == |calls| + 1
    && forall i :: 0 <= i < |calls| ==> trace[i + 1] == HookEffect(mix, flags, trace[i], calls[i])
  }

  /** A trace extended by one call and the state that call produced is still a trace. */
  lemma TracedAppend(mix: Mixer, flags: Flags, trace: seq<InstrState>, calls: seq<HookCall>,
                     c: HookCall, next: InstrState)
    requires Traced(mix, flags, trace, calls)
    requires next == HookEffect(mix, flags, trace[|calls|], c)
    ensures Traced(mix, flags, trace + [next], calls + [c])
  {
    var trace', calls' := trace + [next], calls + [c];
    forall i | 0 <= i < |calls'|
      ensures trace'[i + 1] == HookEffect(mix, flags, trace'[i], calls'[i])
    {
      if i < |calls| {
        assert trace'[i + 1] == trace[i + 1] && trace'[i] == trace[i] && calls'[i] == calls[i];
      }
    }
  }

  /** The last state of a trace is the replay of its calls on its first state. */
  lemma {:induction false} TracedIsReplay(mix: Mixer, flags: Flags, trace: seq<InstrState>, calls: seq<HookCall>)
    requires Traced(mix, flags, trace, calls)
    ensures trace[|calls|] == Replay(mix, flags, trace[0], calls)
    decreases |calls|
  {
    if calls != [] {
      var n := |calls| - 1;
      assert Traced(mix, flags, trace[..n + 1], calls[..n]);
      TracedIsReplay(mix, flags, trace[..n + 1], calls[..n]);
    }
  }

  /**
   * Whatever sequence of allocations and moves the hooks see, the hash stays
   * the digest of the events folded so far and, under verify_predictable,
   * the counter counts them.
   */
  lemma {:induction false} ReplayKeepsConsistent(
    mix: Mixer, flags: Flags, initialHash: u32, initialCount: u32, s: InstrState, calls: seq<HookCall>)
    requires flags.verifyPredictable ==> flags.dumpAllocationsDigestAtAlloc != 0
    requires Consistent(mix, flags, initialHash, initialCount, s)
    ensures Consistent(mix, flags, initialHash, initialCount, Replay(mix, flags, s, calls))
    decreases |calls|
  {
    if calls != [] {
      var prefix := calls[..|calls| - 1];
      ReplayKeepsConsistent(mix, flags, initialHash, initialCount, s, prefix);
      var before := Replay(mix, flags, s, prefix);
      match calls[|calls| - 1]
      case AllocationCall(obj, location, size, profiled) =>
        AllocationEventFoldsOneEvent(mix, flags, initialHash, initialCount, profiled, before, obj, location, size);
      case MoveCall(target, source, isSharedFunctionInfo, targetWord, sourceWord, size, profiled) =>
        MoveEventFoldsOneEvent(mix, flags, initialHash, initialCount, profiled, before, target, source,
                               isSharedFunctionInfo, targetWord, sourceWord, size);
    }
  }

  /**
   * Replay: two runs that start from the same hash and fold the same events
   * end with the same hash, and that hash is the string hash of the events'
   * words split into halves.
   */
  lemma {:induction false} ReplayGivesSameDigest(
    mix: Mixer, flags: Flags, initialHash: u32, initialCount: u32, run1: InstrState, run2: InstrState)
    requires Consistent(mix, flags, initialHash, initialCount, run1)
    requires Consistent(mix, flags, initialHash, initialCount, run2)
    requires run1.hashed == run2.hashed
    ensures run1.rawHash == run2.rawHash
    ensures run1.rawHash == FoldChars(mix, initialHash, Halves(EventsWords(run1.hashed)))
    ensures flags.verifyPredictable ==> run1.allocationsCount == run2.allocationsCount
  {
    FoldWordsIsStringHash(mix, initialHash, EventsWords(run1.hashed));
  }
}
