// Slice_<T>: a window (start, count) on a read-only list source. The list
// is a sequence here; the C# struct is an object whose start and count
// PopFront and PopBack update in place.
module ListSlices {
  import opened Wrappers
  import opened Ranges

  // A sub-range of a range of l is a range of l.
  lemma SubRange<T>(l: seq<T>, a: nat, n: nat, f: nat, c: nat)
    requires a + n <= |l| && f + c <= n
    ensures l[a..a + n][f..][..c] == l[a + f..a + f + c]
  {
    var x := l[a..a + n][f..][..c];
    assert |x| == c;
    forall k | 0 <= k < c ensures x[k] == l[a + f + k] {
      assert x[k] == l[a..a + n][f + k];
    }
  }

  class Slice_<T> {
    const list: seq<T>
    var start: int
    var count: int

    // The start may lie past the end of the list, but only when the slice
    // is empty.
    ghost predicate Valid()
      reads this
    {
      0 <= start && 0 <= count && (count > 0 ==> start + count <= |list|)
    }

    // The elements the slice spans.
    function Contents(): (s: seq<T>)
      reads this
      requires Valid()
      ensures |s| == count
    {
      if count == 0 then [] else list[start..start + count]
    }

    constructor Raw(l: seq<T>, start: int, count: int)
      requires 0 <= start && 0 <= count && (count > 0 ==> start + count <= |l|)
      ensures Valid() && list == l && this.start == start && this.count == count
    {
      list := l;
      this.start := start;
      this.count := count;
    }

    // Slice_(list, start, count): a negative start or count throws
    // ArgumentException; a count reaching past the end is cut down to the
    // elements left.
    static method New(l: seq<T>, start: int, count: int) returns (r: Result<Slice_<T>, SliceError>)
      ensures r.Err? <==> start < 0 || count < 0
      ensures r.Err? ==> r.error == if start < 0 then StartBelowZero else CountBelowZero
      ensures r.Ok? ==> fresh(r.value) && r.value.Valid() && r.value.list == l && r.value.start == start
      ensures r.Ok? ==> r.value.count == ClampedCount(|l| - start, count)
      ensures r.Ok? ==> r.value.Contents() == if start < |l| then l[start..][..Min(count, |l| - start)] else []
    {
      if start < 0 {
        return Err(StartBelowZero);
      }
      if count < 0 {
        return Err(CountBelowZero);
      }
      var c := count;
      if c > |l| - start {
        c := Max(|l| - start, 0);
      }
      var s := new Slice_.Raw(l, start, c);
      return Ok(s);
    }

    // this[index]: the element at start + index, or ArgumentOutOfRange.
    function At(index: int): (r: Result<T, SliceError>)
      reads this
      requires Valid()
      ensures r.Ok? <==> InRange(index, count)
      ensures r.Ok? ==> r.value == Contents()[index]
      ensures r.Err? ==> r.error == ArgumentOutOfRange
    {
      if InRange(index, count) then Ok(list[start + index]) else Err(ArgumentOutOfRange)
    }

    // this[index, defaultValue]
    function AtOr(index: int, defaultValue: T): (r: T)
      reads this
      requires Valid()
      ensures InRange(index, count) ==> r == Contents()[index]
      ensures !InRange(index, count) ==> r == defaultValue
    {
      if InRange(index, count) then list[start + index] else defaultValue
    }

    // TryGet(index, out fail): None stands for fail = true and default(T).
    function TryGet(index: int): (r: Option<T>)
      reads this
      requires Valid()
      ensures r.Some? <==> InRange(index, count)
      ensures r.Some? ==> r.value == Contents()[index]
    {
      if InRange(index, count) then Some(list[start + index]) else None
    }

    function Front(): (r: Result<T, SliceError>)
      reads this
      requires Valid()
      ensures r.Ok? <==> count > 0
      ensures r.Ok? ==> r.value == Contents()[0]
      ensures r.Err? ==> r.error == ArgumentOutOfRange
    {
      At(0)
    }

    function Back(): (r: Result<T, SliceError>)
      reads this
      requires Valid()
      ensures r.Ok? <==> count > 0
      ensures r.Ok? ==> r.value == Contents()[count - 1]
      ensures r.Err? ==> r.error == ArgumentOutOfRange
    {
      At(count - 1)
    }

    // PopFront(out empty): None stands for empty = true and default(T).
    method PopFront() returns (r: Option<T>)
      requires Valid()
      modifies this
      ensures Valid()
      ensures r.None? <==> old(count) == 0
      ensures r.None? ==> start == old(start) && count == old(count)
      ensures r.Some? ==> r.value == old(Contents())[0]
      ensures r.Some? ==> start == old(start) + 1 && count == old(count) - 1
      ensures r.Some? ==> Contents() == old(Contents())[1..]
    {
      if count != 0 {
        count := count - 1;
        var x := list[start];
        start := start + 1;
        return Some(x);
      }
      return None;
    }

    // PopBack(out empty): None stands for empty = true and default(T).
    method PopBack() returns (r: Option<T>)
      requires Valid()
      modifies this
      ensures Valid()
      ensures r.None? <==> old(count) == 0
      ensures r.None? ==> start == old(start) && count == old(count)
      ensures r.Some? ==> r.value == old(Contents())[old(count) - 1]
      ensures r.Some? ==> start == old(start) && count == old(count) - 1
      ensures r.Some? ==> Contents() == old(Contents())[..old(count) - 1]
    {
      if count != 0 {
        count := count - 1;
        return Some(list[start + count]);
      }
      return None;
    }

    // Slice(start, count): unlike ArraySlice.Slice, a negative count throws
    // as a negative start does; the result is cut down to this slice.
    method Slice(from: int, len: int) returns (r: Result<Slice_<T>, SliceError>)
      requires Valid()
      ensures r.Err? <==> from < 0 || len < 0
      ensures r.Err? ==> r.error == if from < 0 then StartBelowZero else CountBelowZero
      ensures r.Ok? ==> fresh(r.value) && r.value.Valid() && r.value.list == list
      ensures r.Ok? ==> r.value.start == start + from
      ensures r.Ok? ==> r.value.count == ClampedCount(count - from, len)
      ensures r.Ok? ==> r.value.Contents() == Contents()[Min(from, count)..][..r.value.count]
    {
      if from < 0 {
        return Err(StartBelowZero);
      }
      if len < 0 {
        return Err(CountBelowZero);
      }
      var c := len;
      if c > count - from {
        c := Max(count - from, 0);
      }
      var s := new Slice_.Raw(list, start + from, c);
      if c > 0 {
        assert from + c <= count;
        SubRange(list, start, count, from, c);
        assert s.Contents() == list[start + from..start + from + c];
      }
      return Ok(s);
    }
  }
}
