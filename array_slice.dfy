// ArraySlice<T>: a window (start, count) on an array. The struct is a value
// in C#, but the array it points to is shared: writing through the indexer
// changes the array, and with it every other slice of that array. Here the
// slice is an object whose start and count PopFirst and PopLast update in
// place, and whose array is a field that several slices may share.
module ArraySlices {
  import opened Wrappers
  import opened Ranges

  class ArraySlice<T(0)> {
    const list: array<T>
    var start: int
    var count: int

    // The start may lie past the end of the array, but only when the slice
    // is empty.
    ghost predicate Valid()
      reads this
    {
      0 <= start && 0 <= count && (count > 0 ==> start + count <= list.Length)
    }

    // The elements the slice spans.
    function Contents(): (s: seq<T>)
      reads this, list
      requires Valid()
      ensures |s| == count
    {
      if count == 0 then [] else list[start..start + count]
    }

    constructor Raw(a: array<T>, start: int, count: int)
      requires 0 <= start && 0 <= count && (count > 0 ==> start + count <= a.Length)
      ensures Valid() && list == a && this.start == start && this.count == count
    {
      list := a;
      this.start := start;
      this.count := count;
    }

    // ArraySlice(T[] list), also the implicit conversion from an array.
    constructor FromArray(a: array<T>)
      ensures Valid() && list == a && start == 0 && count == a.Length
      ensures Contents() == a[..]
    {
      list := a;
      start := 0;
      count := a.Length;
    }

    // ArraySlice(list, start, count): a negative start or count throws; a
    // count reaching past the end is cut down to the elements left.
    static method New(a: array<T>, start: int, count: int) returns (r: Result<ArraySlice<T>, SliceError>)
      ensures r.Err? <==> start < 0 || count < 0
      ensures r.Err? ==> r.error == if start < 0 then StartBelowZero else CountBelowZero
      ensures r.Ok? ==> fresh(r.value) && r.value.Valid() && r.value.list == a && r.value.start == start
      ensures r.Ok? ==> r.value.count == ClampedCount(a.Length - start, count)
      ensures r.Ok? ==> r.value.Contents() == if start < a.Length then a[start..][..Min(count, a.Length - start)] else []
    {
      if start < 0 {
        return Err(StartBelowZero);
      }
      if count < 0 {
        return Err(CountBelowZero);
      }
      var c := count;
      if c > a.Length - start {
        c := Max(a.Length - start, 0);
      }
      var s := new ArraySlice.Raw(a, start, c);
      return Ok(s);
    }

    // this[index] (get): the element at start + index, or IndexOutOfRange.
    function At(index: int): (r: Result<T, SliceError>)
      reads this, list
      requires Valid()
      ensures r.Ok? <==> InRange(index, count)
      ensures r.Ok? ==> r.value == Contents()[index]
      ensures r.Err? ==> r.error == IndexOutOfRange
    {
      if InRange(index, count) then Ok(list[start + index]) else Err(IndexOutOfRange)
    }

    // this[index, defaultValue]
    function AtOr(index: int, defaultValue: T): (r: T)
      reads this, list
      requires Valid()
      ensures InRange(index, count) ==> r == Contents()[index]
      ensures !InRange(index, count) ==> r == defaultValue
    {
      if InRange(index, count) then list[start + index] else defaultValue
    }

    // TryGet(index, out fail): None stands for fail = true and default(T).
    function TryGet(index: int): (r: Option<T>)
      reads this, list
      requires Valid()
      ensures r.Some? <==> InRange(index, count)
      ensures r.Some? ==> r.value == Contents()[index]
    {
      if InRange(index, count) then Some(list[start + index]) else None
    }

    function First(): (r: Result<T, SliceError>)
      reads this, list
      requires Valid()
      ensures r.Ok? <==> count > 0
      ensures r.Ok? ==> r.value == Contents()[0]
    {
      At(0)
    }

    function Last(): (r: Result<T, SliceError>)
      reads this, list
      requires Valid()
      ensures r.Ok? <==> count > 0
      ensures r.Ok? ==> r.value == Contents()[count - 1]
    {
      At(count - 1)
    }

    // this[index] (set): writes the array at start + index and nowhere else;
    // out of range it throws IndexOutOfRange and writes nothing.
    method Set(index: int, value: T) returns (r: Result<(), SliceError>)
      requires Valid()
      modifies list
      ensures r.Ok? <==> InRange(index, count)
      ensures r.Err? ==> r.error == IndexOutOfRange && list[..] == old(list[..])
      ensures r.Ok? ==> list[..] == old(list[..])[start + index := value]
      ensures r.Ok? ==> Contents() == old(Contents())[index := value]
    {
      if InRange(index, count) {
        list[start + index] := value;
        return Ok(());
      }
      return Err(IndexOutOfRange);
    }

    // First (set)
    method SetFirst(value: T) returns (r: Result<(), SliceError>)
      requires Valid()
      modifies list
      ensures r.Ok? <==> count > 0
      ensures r.Err? ==> list[..] == old(list[..])
      ensures r.Ok? ==> Contents() == old(Contents())[0 := value]
    {
      r := Set(0, value);
    }

    // Last (set)
    method SetLast(value: T) returns (r: Result<(), SliceError>)
      requires Valid()
      modifies list
      ensures r.Ok? <==> count > 0
      ensures r.Err? ==> list[..] == old(list[..])
      ensures r.Ok? ==> Contents() == old(Contents())[count - 1 := value]
    {
      r := Set(count - 1, value);
    }

    // PopFirst(out empty): None stands for empty = true and default(T).
    method PopFirst() returns (r: Option<T>)
      requires Valid()
      modifies this
      ensures Valid()
      ensures r.None? <==> old(count) == 0
      ensures r.None? ==> start == old(start) && count == old(count)
      ensures r.Some? ==> r.value == old(Contents())[0]
      ensures r.Some? ==> start == old(start) + 1 && count == old(count) - 1
      ensures r.Some? ==> Contents() == old(Contents())[1..]
    {
      if count != 0 {
        count := count - 1;
        var x := list[start];
        start := start + 1;
        return Some(x);
      }
      return None;
    }

    // PopLast(out empty): None stands for empty = true and default(T).
    method PopLast() returns (r: Option<T>)
      requires Valid()
      modifies this
      ensures Valid()
      ensures r.None? <==> old(count) == 0
      ensures r.None? ==> start == old(start) && count == old(count)
      ensures r.Some? ==> r.value == old(Contents())[old(count) - 1]
      ensures r.Some? ==> start == old(start) && count == old(count) - 1
      ensures r.Some? ==> Contents() == old(Contents())[..old(count) - 1]
    {
      if count != 0 {
        count := count - 1;
        return Some(list[start + count]);
      }
      return None;
    }

    // Slice(start, count): a negative start throws, a negative count counts
    // as 0, and the result is cut down to this slice.
    method Slice(from: int, len: int) returns (r: Result<ArraySlice<T>, SliceError>)
      requires Valid()
      ensures r.Err? <==> from < 0
      ensures r.Err? ==> r.error == StartBelowZero
      ensures r.Ok? ==> fresh(r.value) && r.value.Valid() && r.value.list == list
      ensures r.Ok? ==> r.value.start == start + from
      ensures r.Ok? ==> r.value.count == ClampedCount(count - from, Max(len, 0))
      ensures r.Ok? ==> r.value.Contents() == Contents()[Min(from, count)..][..r.value.count]
    {
      if from < 0 {
        return Err(StartBelowZero);
      }
      var c := len;
      if c < 0 {
        c := 0;
      }
      if c > count - from {
        c := Max(count - from, 0);
      }
      var s := Sub(from, c);
      return Ok(s);
    }

    // The c elements from offset `from` on, as a new slice of the same array.
    method Sub(from: nat, c: nat) returns (s: ArraySlice<T>)
      requires Valid() && (c > 0 ==> from + c <= count)
      ensures fresh(s) && s.Valid() && s.list == list && s.start == start + from && s.count == c
      ensures s.Contents() == Contents()[Min(from, count)..][..c]
    {
      ghost var want := Contents()[Min(from, count)..][..c];
      assert c > 0 ==> want == list[start + from..start + from + c];
      s := new ArraySlice.Raw(list, start + from, c);
      assert s.Contents() == if c == 0 then [] else list[start + from..start + from + c];
      assert Contents() == old(Contents());
    }

    // ToArray: a new array holding the elements of the slice.
    method ToArray() returns (a: array<T>)
      requires Valid()
      ensures fresh(a) && a[..] == Contents()
    {
      a := new T[count];
      for i := 0 to a.Length
        invariant a[..i] == Contents()[..i]
      {
        a[i] := list[start + i];
      }
    }
  }
}
