/**
 * The loaders' insert loops walk their lists as `for i in range(0, len(data), size):
 * batch = data[i:i + size]`, execute one insert per element of the batch, and commit
 * after each batch.
 */
module Batching {

  function Min(a: int, b: int): int {
    if a < b then a else b
  }

  /**
   * The parameter tuples the batched insert loop hands to `cur.execute`, in order:
   * every element of `data` exactly once, in list order, whatever the batch size.
   */
  method ExecuteInBatches<T, U>(data: seq<T>, size: nat, params: T -> U) returns (executed: seq<U>)
    requires size > 0
    ensures |executed| == |data|
    ensures forall k :: 0 <= k < |data| ==> executed[k] == params(data[k])
  {
    executed := [];
    var i := 0;
    while i < |data|
      invariant 0 <= i
      invariant |executed| == Min(i, |data|)
      invariant forall k :: 0 <= k < |executed| ==> executed[k] == params(data[k])
    {
      var batch := data[i..Min(i + size, |data|)];
      for b := 0 to |batch|
        invariant |executed| == i + b
        invariant forall k :: 0 <= k < |executed| ==> executed[k] == params(data[k])
      {
        executed := executed + [params(batch[b])];
      }
      i := i + size;
    }
  }
}
