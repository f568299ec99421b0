// ReversedListSource<T>: a read-only view that shows a list source back to
// front, by index arithmetic on the list it wraps. The wrapped list may
// itself be a reversed view, so a list source is a plain list or a reversed
// view of another list source.
module ReversedLists {
  import opened Wrappers

  datatype ListError = IndexOutOfRange

  datatype ListSource<T> = Plain(items: seq<T>) | Reversed(original: ListSource<T>)

  // s back to front.
  function Reverse<T>(s: seq<T>): (r: seq<T>)
    ensures |r| == |s|
    ensures forall i :: 0 <= i < |s| ==> r[i] == s[|s| - 1 - i]
  {
    if s == [] then [] else Reverse(s[1..]) + [s[0]]
  }

  lemma ReverseReverse<T>(s: seq<T>)
    ensures Reverse(Reverse(s)) == s
  {
    assert forall i :: 0 <= i < |s| ==> Reverse(Reverse(s))[i] == s[i];
  }

  // The elements a list source shows, in order.
  function Items<T>(l: ListSource<T>): seq<T>
  {
    match l
    case Plain(items) => items
    case Reversed(original) => Reverse(Items(original))
  }

  // Count: a reversed view has as many elements as the list it wraps.
  function Count<T>(l: ListSource<T>): (n: nat)
    ensures n == |Items(l)|
  {
    match l
    case Plain(items) => |items|
    case Reversed(original) => Count(original)
  }

  // this[index]: a plain list throws out of range; a reversed view reads the
  // wrapped list at Count - 1 - index.
  function At<T>(l: ListSource<T>, index: int): Result<T, ListError>
  {
    match l
    case Plain(items) => if 0 <= index < |items| then Ok(items[index]) else Err(IndexOutOfRange)
    case Reversed(original) => At(original, Count(original) - 1 - index)
  }

  // TryGet(index, out fail): None stands for fail = true. A reversed view
  // passes the mirrored index, and the wrapped list's fail flag, through.
  function TryGet<T>(l: ListSource<T>, index: int): Option<T>
  {
    match l
    case Plain(items) => if 0 <= index < |items| then Some(items[index]) else None
    case Reversed(original) => TryGet(original, Count(original) - 1 - index)
  }

  // The indexer reads the shown elements and fails exactly out of range.
  lemma {:induction false} AtItems<T>(l: ListSource<T>, index: int)
    ensures At(l, index).Ok? <==> 0 <= index < Count(l)
    ensures At(l, index).Ok? ==> At(l, index).value == Items(l)[index]
  {
    match l
    case Plain(_) =>
    case Reversed(original) => AtItems(original, Count(original) - 1 - index);
  }

  // TryGet agrees with the indexer: it fails where the indexer throws.
  lemma {:induction false} TryGetAt<T>(l: ListSource<T>, index: int)
    ensures TryGet(l, index).Some? <==> At(l, index).Ok?
    ensures TryGet(l, index).Some? ==> TryGet(l, index).value == At(l, index).value
  {
    match l
    case Plain(_) =>
    case Reversed(original) => TryGetAt(original, Count(original) - 1 - index);
  }

  // A reversed view of a reversed view shows the original list ...
  lemma ReversedTwiceItems<T>(l: ListSource<T>)
    ensures Items(Reversed(Reversed(l))) == Items(l)
  {
    ReverseReverse(Items(l));
  }

  // ... and yields the original element at every index.
  lemma ReversedTwiceAt<T>(l: ListSource<T>, index: int)
    ensures At(Reversed(Reversed(l)), index) == At(l, index)
  {
  }
}
