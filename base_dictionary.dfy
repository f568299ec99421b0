// DictionaryBase<TKey, TValue>: the members a user-defined dictionary
// inherits once it supplies Count, TryGetValue, ContainsKey, Add, Remove,
// SetValue and GetEnumerator. The derived dictionary's state is the map
// `entries`; each abstract member is given by what it does to that map, and
// the enumeration order, which the base class cannot see, is a parameter.
module BaseDictionaries {
  import opened Wrappers

  datatype Pair<K, V> = Pair(key: K, value: V)

  datatype DictionaryError =
    | KeyNotFound       // KeyNotFoundException
    | KeyAlreadyExists  // the ArgumentException of Add
    | ArrayNull         // CheckParam.ThrowArgumentNull
    | IndexOutOfRange   // CheckParam.ThrowOutOfRange
    | ArrayTooSmall     // CheckParam.ThrowBadArgument

  // `enumeration` lists every entry of m exactly once, in some order.
  ghost predicate Enumerates<K, V>(enumeration: seq<Pair<K, V>>, m: map<K, V>)
  {
    |enumeration| == |m|
    && (forall i :: 0 <= i < |enumeration| ==>
          enumeration[i].key in m && m[enumeration[i].key] == enumeration[i].value)
    && (forall i, j :: 0 <= i < j < |enumeration| ==> enumeration[i].key != enumeration[j].key)
  }

  class DictionaryBase<K(==), V(==)> {
    var entries: map<K, V>

    constructor (m: map<K, V>)
      ensures entries == m
    {
      entries := m;
    }

    // ---- the abstract members, as the map they stand for

    function Count(): (n: nat)
      reads this
      ensures n == |entries|
    {
      |entries|
    }

    function TryGetValue(key: K): (r: Option<V>)
      reads this
      ensures r.Some? <==> key in entries
      ensures r.Some? ==> r.value == entries[key]
    {
      if key in entries then Some(entries[key]) else None
    }

    method RemoveKey(key: K) returns (removed: bool)
      modifies this
      ensures removed <==> key in old(entries)
      ensures entries == old(entries) - {key}
    {
      removed := key in entries;
      entries := entries - {key};
    }

    method SetValue(key: K, value: V)
      modifies this
      ensures entries == old(entries)[key := value]
    {
      entries := entries[key := value];
    }

    method AddKey(key: K, value: V) returns (r: Result<(), DictionaryError>)
      modifies this
      ensures r.Err? <==> key in old(entries)
      ensures r.Err? ==> r.error == KeyAlreadyExists && entries == old(entries)
      ensures r.Ok? ==> entries == old(entries)[key := value]
    {
      if key in entries {
        return Err(KeyAlreadyExists);
      }
      entries := entries[key := value];
      return Ok(());
    }

    // ---- the members DictionaryBase defines

    // IsReadOnly: always false; every dictionary derived from the base
    // accepts Add, Remove and the setter.
    predicate IsReadOnly()
      reads this
      ensures !IsReadOnly()
    {
      false
    }

    // IsEmpty as written: Count != 0, true exactly when the dictionary is
    // NOT empty.
    predicate IsEmptyAsWritten()
      reads this
      ensures IsEmptyAsWritten() <==> entries != map[]
    {
      Count() != 0
    }

    // IsEmpty as its name promises.
    predicate IsEmpty()
      reads this
      ensures IsEmpty() <==> entries == map[]
      ensures IsEmpty() <==> !IsEmptyAsWritten()
    {
      Count() == 0
    }

    // TryGet(key, out fail): None stands for fail = true.
    function TryGet(key: K): (r: Option<V>)
      reads this
      ensures r.None? <==> TryGetValue(key).None?
      ensures r.Some? ==> key in entries && r.value == entries[key]
    {
      TryGetValue(key)
    }

    // this[key] (get)
    function Get(key: K): (r: Result<V, DictionaryError>)
      reads this
      ensures r.Err? <==> key !in entries
      ensures r.Err? ==> r.error == KeyNotFound
      ensures r.Ok? ==> r.value == entries[key]
    {
      var v := TryGetValue(key);
      if v.None? then Err(KeyNotFound) else Ok(v.value)
    }

    // this[key] (set): SetValue.
    method Set(key: K, value: V)
      modifies this
      ensures Get(key) == Ok(value)
      ensures entries == old(entries)[key := value]
    {
      SetValue(key, value);
    }

    // Add(KeyValuePair)
    method Add(item: Pair<K, V>) returns (r: Result<(), DictionaryError>)
      modifies this
      ensures r.Err? <==> item.key in old(entries)
      ensures r.Err? ==> entries == old(entries)
      ensures r.Ok? ==> entries == old(entries)[item.key := item.value] && Contains(item)
    {
      r := AddKey(item.key, item.value);
    }

    // Contains(KeyValuePair): the key is there and holds an equal value.
    predicate Contains(item: Pair<K, V>)
      reads this
      ensures Contains(item) <==> item.key in entries && entries[item.key] == item.value
    {
      var v := TryGetValue(item.key);
      v.Some? && v.value == item.value
    }

    // Remove(KeyValuePair): removes the key only when it holds that value.
    method Remove(item: Pair<K, V>) returns (removed: bool)
      modifies this
      ensures removed <==> old(Contains(item))
      ensures removed ==> entries == old(entries) - {item.key}
      ensures !removed ==> entries == old(entries)
      ensures !Contains(item)
    {
      if !Contains(item) {
        return false;
      }
      removed := RemoveKey(item.key);
    }

    // CopyTo(array, arrayIndex), through Copy: the checks, then the entries
    // in enumeration order from arrayIndex on.
    method CopyTo(a: array?<Pair<K, V>>, arrayIndex: int, enumeration: seq<Pair<K, V>>)
      returns (r: Result<(), DictionaryError>)
      requires Enumerates(enumeration, entries)
      modifies a
      ensures r == CopyCheck(a, arrayIndex, Count())
      ensures r.Err? ==> a == null || a[..] == old(a[..])
      ensures r.Ok? ==> a != null && a[..] == old(a[..arrayIndex]) + enumeration + old(a[arrayIndex + Count()..])
    {
      r := Copy(enumeration, a, arrayIndex);
    }
  }

  // The checks of Copy, in order: a null array, an index that is negative or
  // past the end (the `(uint)` comparison), too few slots after the index.
  function CopyCheck<T>(a: array?<T>, arrayIndex: int, count: nat): (r: Result<(), DictionaryError>)
    reads a
    ensures r.Ok? <==> a != null && 0 <= arrayIndex && arrayIndex + count <= a.Length
  {
    if a == null then Err(ArrayNull)
    else if arrayIndex < 0 || arrayIndex > a.Length then Err(IndexOutOfRange)
    else if a.Length - arrayIndex < count then Err(ArrayTooSmall)
    else Ok(())
  }

  // Copy(source, array, arrayIndex), with `source` as the sequence its
  // foreach visits.
  method Copy<T>(source: seq<T>, a: array?<T>, arrayIndex: int) returns (r: Result<(), DictionaryError>)
    modifies a
    ensures r == CopyCheck(a, arrayIndex, |source|)
    ensures r.Err? ==> a == null || a[..] == old(a[..])
    ensures r.Ok? ==> a != null && a[..] == old(a[..arrayIndex]) + source + old(a[arrayIndex + |source|..])
  {
    r := CopyCheck(a, arrayIndex, |source|);
    if r.Err? {
      return;
    }
    var j := arrayIndex;
    for i := 0 to |source|
      invariant j == arrayIndex + i
      invariant a[..arrayIndex] == old(a[..arrayIndex])
      invariant a[arrayIndex..j] == source[..i]
      invariant a[arrayIndex + |source|..] == old(a[arrayIndex + |source|..])
    {
      a[j] := source[i];
      j := j + 1;
    }
    assert source[..|source|] == source;
    assert a[..] == a[..arrayIndex] + a[arrayIndex..arrayIndex + |source|] + a[arrayIndex + |source|..];
  }
}
