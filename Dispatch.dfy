/**
 * Which input items the node runs its operation for: the read-only row operations run
 * once with the parameters of item 0, every other operation once per item, in order.
 */
module Dispatch {

  predicate IsReadOnly(resource: string, operation: string) {
    resource == "row" && (operation == "readRows" || operation == "filterRows")
  }

  /** The item indices whose parameters are used, in processing order. */
  function ProcessedIndices(resource: string, operation: string, itemCount: nat): (indices: seq<nat>)
    ensures IsReadOnly(resource, operation) ==> indices == [0]
    ensures !IsReadOnly(resource, operation) ==> |indices| == itemCount
    ensures forall k :: 0 <= k < |indices| && !IsReadOnly(resource, operation) ==> indices[k] == k
  {
    if IsReadOnly(resource, operation) then [0]
    else seq(itemCount, k => k)
  }
}
