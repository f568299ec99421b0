// Index arithmetic shared by the slice adapters ArraySlice and Slice_.
module Ranges {
  // IndexOutOfRange is C#'s IndexOutOfRangeException (ArraySlice's indexer);
  // ArgumentOutOfRange is ArgumentOutOfRangeException (Slice_'s indexer).
  datatype SliceError = StartBelowZero | CountBelowZero | IndexOutOfRange | ArgumentOutOfRange

  function Min(a: int, b: int): int { if a <= b then a else b }

  function Max(a: int, b: int): int { if a >= b then a else b }

  // The count the constructor and Slice keep when `available` elements are
  // left after the start: the requested count, cut down to what is left and
  // never below zero.
  function ClampedCount(available: int, count: nat): (c: nat)
    ensures c <= count
    ensures c > 0 ==> c <= available
    ensures count <= available ==> c == count
    ensures count > available ==> c == Max(available, 0)
  {
    if count > available then Max(available, 0) else count
  }

  // The indexers compare (uint)index < (uint)count. With a count that is
  // never negative this is 0 <= index < count: a negative index becomes a
  // number of at least 2^31, and count is below that.
  predicate InRange(index: int, count: nat)
  {
    0 <= index < count
  }
}
