/** Selecting positions of a sequence: the order-preserving subsequences both filter stages produce. */
module Subsequence {

  /** Each position is smaller than the next. */
  ghost predicate Increasing(ix: seq<nat>)
  {
    forall i, j :: 0 <= i < j < |ix| ==> ix[i] < ix[j]
  }

  /** The positions at which `mask` holds, in ascending order. */
  function Select(mask: seq<bool>): (ix: seq<nat>)
    ensures Increasing(ix)
    ensures forall i :: 0 <= i < |ix| ==> ix[i] < |mask| && mask[ix[i]]
    ensures forall k :: 0 <= k < |mask| && mask[k] ==> k in ix
    decreases |mask|
  {
    if mask == [] then []
    else
      var n := |mask| - 1;
      Select(mask[..n]) + (if mask[n] then [n] else [])
  }

  /** Extending the mask by one entry extends the selection by at most that position. */
  lemma SelectSnoc(mask: seq<bool>, b: bool)
    ensures Select(mask + [b]) == Select(mask) + (if b then [|mask|] else [])
  {
    assert (mask + [b])[..|mask|] == mask;
  }
}
