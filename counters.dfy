/** The script id sequence kept in the last_script_id root. */
module Counters {
  import opened HeapTypes

  /**
   * The id Heap::NextScriptId hands out when the last one was `last`:
   * ids stay small integers, wrapping from Smi::kMaxValue back to 1.
   */
  function NextScriptIdAfter(last: int): (id: int)
    requires 0 <= last <= SmiMaxValue
    ensures 1 <= id <= SmiMaxValue
  {
    if last == SmiMaxValue then 1 else last + 1
  }

  /** The last script id after `n` calls, starting from `start`. */
  function ScriptIdAfterCalls(start: int, n: nat): (id: int)
    requires 0 <= start <= SmiMaxValue
    ensures 0 <= id <= SmiMaxValue
    ensures n > 0 ==> id >= 1
  {
    if n == 0 then start else NextScriptIdAfter(ScriptIdAfterCalls(start, n - 1))
  }

  /**
   * From a fresh heap (last id 0) the n-th call returns n, so the first
   * Smi::kMaxValue ids are pairwise distinct; the call after that wraps to 1.
   */
  lemma {:induction false} ScriptIdsCountFromOne(n: nat)
    requires 1 <= n <= SmiMaxValue + 1
    ensures ScriptIdAfterCalls(0, n) == if n <= SmiMaxValue then n else 1
  {
    if n > 1 {
      ScriptIdsCountFromOne(n - 1);
    }
  }

  /** Distinct call counts within one cycle give distinct ids. */
  lemma ScriptIdsDistinctWithinCycle(m: nat, n: nat)
    requires 1 <= m < n <= SmiMaxValue
    ensures ScriptIdAfterCalls(0, m) != ScriptIdAfterCalls(0, n)
  {
    ScriptIdsCountFromOne(m);
    ScriptIdsCountFromOne(n);
  }
}
