// CPTrie: the key encoding that turns a string into trie bytes and back, and
// the entry count the trie keeps beside its root node. The node algorithms
// (CPLinear, CPBitArrayLeaf, ...) are not part of this model: the root is an
// abstract map from byte keys to values, absent when the trie is empty.
module CPTries {
  import opened Wrappers
  import opened Chars
  import BinaryFormat

  type Byte = BinaryFormat.Byte

  // StringScratchBufferLen: the length of the per-thread scratch buffer.
  const ScratchLength: nat := 48

  // ---------------------------------------------------------------------------
  // The simplified UTF-8 of StringToBytes: every UTF-16 code unit on its own
  // (a surrogate is encoded like any other unit). The C# code builds the bytes
  // with `|` and `&`; each OR joins fields whose bits do not overlap, so it is
  // an addition, and `& 0x3F` is `% 64`.

  function EncodeUnit(c: Char16): (r: seq<Byte>)
    ensures |r| == if c < 0x80 then 1 else if c < 0x800 then 2 else 3
  {
    if c < 0x80 then [c]
    else if c < 0x800 then [c / 64 + 0xC0, c % 64 + 0x80]
    else [c / 4096 + 0xE0, c / 64 % 64 + 0x80, c % 64 + 0x80]
  }

  function EncodeKey(s: seq<Char16>): seq<Byte>
  {
    if s == [] then [] else EncodeUnit(s[0]) + EncodeKey(s[1..])
  }

  lemma {:induction false} EncodeKeyAppend(a: seq<Char16>, b: seq<Char16>)
    ensures EncodeKey(a + b) == EncodeKey(a) + EncodeKey(b)
  {
    if a == [] {
      assert a + b == b;
    } else {
      assert (a + b)[0] == a[0] && (a + b)[1..] == a[1..] + b;
      EncodeKeyAppend(a[1..], b);
    }
  }

  // Encoding one more unit appends that unit's bytes.
  lemma EncodeKeySnoc(s: seq<Char16>, i: nat)
    requires i < |s|
    ensures EncodeKey(s[..i + 1]) == EncodeKey(s[..i]) + EncodeUnit(s[i])
  {
    assert s[..i + 1] == s[..i] + [s[i]];
    EncodeKeyAppend(s[..i], [s[i]]);
    assert EncodeKey([s[i]]) == EncodeUnit(s[i]) + EncodeKey([]);
  }

  // No unit takes more than three bytes, so a key of at most 16 units fits
  // the scratch buffer.
  lemma {:induction false} EncodeKeyAtMostThree(s: seq<Char16>)
    ensures |EncodeKey(s)| <= 3 * |s|
  {
    if s != [] {
      EncodeKeyAtMostThree(s[1..]);
    }
  }

  // The bytes of a prefix are a prefix of the bytes.
  lemma EncodeKeyPrefix(s: seq<Char16>, i: nat)
    requires i <= |s|
    ensures |EncodeKey(s[..i])| <= |EncodeKey(s)|
  {
    assert s == s[..i] + s[i..];
    EncodeKeyAppend(s[..i], s[i..]);
  }

  // The exact-length loop of StringToBytes: one byte per unit, plus one for a
  // unit of 0x80 or more and one more for a unit of 0x800 or more.
  method EncodedLength(key: seq<Char16>) returns (outSize: nat)
    ensures outSize == |EncodeKey(key)|
  {
    outSize := |key|;
    for i := 0 to |key|
      invariant outSize == |key| - i + |EncodeKey(key[..i])|
    {
      EncodeKeySnoc(key, i);
      var c := key[i];
      if c >= 0x80 {
        outSize := outSize + (if c >= 0x800 then 2 else 1);
      }
    }
    assert key[..|key|] == key;
  }

  // One round of the encoding loop: the bytes of c at buf[B..].
  method PutUnit(buf: array<Byte>, B: nat, c: Char16) returns (next: nat)
    requires B + |EncodeUnit(c)| <= buf.Length
    modifies buf
    ensures next == B + |EncodeUnit(c)|
    ensures buf[..next] == old(buf[..B]) + EncodeUnit(c)
  {
    if c < 0x80 {
      buf[B] := c;
      next := B + 1;
    } else if c < 0x800 {
      buf[B] := c / 64 + 0xC0;
      buf[B + 1] := c % 64 + 0x80;
      next := B + 2;
    } else {
      buf[B] := c / 4096 + 0xE0;
      buf[B + 1] := c / 64 % 64 + 0x80;
      buf[B + 2] := c % 64 + 0x80;
      next := B + 3;
    }
  }

  // The encoding loop of StringToBytes: writes the key's bytes at the front
  // of buf and returns how many there are.
  method EncodeInto(key: seq<Char16>, buf: array<Byte>) returns (B: nat)
    requires |EncodeKey(key)| <= buf.Length
    modifies buf
    ensures B == |EncodeKey(key)|
    ensures buf[..B] == EncodeKey(key)
  {
    ghost var e := EncodeKey(key);
    B := 0;
    for i := 0 to |key|
      invariant B == |EncodeKey(key[..i])| <= |e|
      invariant buf[..B] == EncodeKey(key[..i])
    {
      EncodeKeySnoc(key, i);
      EncodeKeyPrefix(key, i + 1);
      B := PutUnit(buf, B, key[i]);
    }
    assert key[..|key|] == key;
  }

  // StringToBytes. `scratch` is the thread's scratch buffer (null before
  // the first call); `scratchOut` is its value afterwards. The key is
  // buf[..len]. The scratch buffer serves every key of at most 16 units and
  // every longer key whose bytes fit it; a longer key gets a new buffer of
  // exactly its length.
  method StringToBytes(key: seq<Char16>, scratch: array?<Byte>)
    returns (buf: array<Byte>, len: nat, scratchOut: array?<Byte>)
    requires scratch != null ==> scratch.Length == ScratchLength
    modifies scratch
    ensures len == |EncodeKey(key)| <= buf.Length
    ensures buf[..len] == EncodeKey(key)
    ensures scratch != null ==> scratchOut == scratch
    ensures scratch == null ==> scratchOut == null || fresh(scratchOut)
    ensures scratchOut != null ==> scratchOut.Length == ScratchLength
    ensures (|key| <= ScratchLength / 3 || len <= ScratchLength) == (buf == scratchOut)
    ensures buf != scratchOut ==> fresh(buf) && buf.Length == len
  {
    var outSize := |key|;
    var b := scratch;
    if outSize > ScratchLength / 3 {
      outSize := EncodedLength(key);
      if outSize > ScratchLength {
        b := new Byte[outSize];
      }
    }
    scratchOut := scratch;
    if b == null {
      b := new Byte[ScratchLength];
      scratchOut := b;
    }
    buf := b;
    EncodeKeyAtMostThree(key);
    len := EncodeInto(key, buf);
  }

  // ---------------------------------------------------------------------------
  // Decoding. BytesToStringBuilder reads a lead byte and, for a multi-byte
  // unit, the bytes after it; a byte past the end of the array throws
  // IndexOutOfRangeException, which is the error here.

  datatype KeyError = IndexOutOfRange

  function Prepend(c: Char16, r: Result<seq<Char16>, KeyError>): Result<seq<Char16>, KeyError>
  {
    if r.Ok? then Ok([c] + r.value) else r
  }

  // A two-byte unit.
  function Unit2(k: Byte, k2: Byte): Char16
  {
    (k % 32) * 64 + k2 % 64
  }

  // A three-byte unit, from all three bytes.
  function Unit3(k: Byte, k2: Byte, k3: Byte): Char16
  {
    (k % 16) * 4096 + (k2 % 64) * 64 + k3 % 64
  }

  // A three-byte unit as BytesToStringBuilder computes it: the second byte
  // supplies both the middle and the low six bits, and the third byte is read
  // but not used.
  function Unit3AsWritten(k: Byte, k2: Byte, k3: Byte): Char16
  {
    (k % 16) * 4096 + (k2 % 64) * 64 + k2 % 64
  }

  // The units key[b..keyLength] decodes to. With asWritten, three-byte units
  // are decoded as BytesToStringBuilder does; without it, from all three bytes.
  function DecodeFrom(key: seq<Byte>, keyLength: int, b: nat, asWritten: bool): Result<seq<Char16>, KeyError>
    requires b <= |key|
    decreases |key| - b
  {
    if b >= keyLength then Ok([])
    else if b == |key| then Err(IndexOutOfRange)
    else if key[b] < 0x80 then Prepend(key[b], DecodeFrom(key, keyLength, b + 1, asWritten))
    else if key[b] < 0xE0 then
      if b + 1 == |key| then Err(IndexOutOfRange)
      else Prepend(Unit2(key[b], key[b + 1]), DecodeFrom(key, keyLength, b + 2, asWritten))
    else if b + 2 >= |key| then Err(IndexOutOfRange)
    else
      var c := if asWritten then Unit3AsWritten(key[b], key[b + 1], key[b + 2])
               else Unit3(key[b], key[b + 1], key[b + 2]);
      Prepend(c, DecodeFrom(key, keyLength, b + 3, asWritten))
  }

  // What BytesToString returns for key[..keyLength].
  function KeyString(key: seq<Byte>, keyLength: int): Result<seq<Char16>, KeyError>
  {
    if keyLength == 0 then Ok([])
    else if keyLength <= 1 then (if key == [] then Err(IndexOutOfRange) else Ok([key[0]]))
    else DecodeFrom(key, keyLength, 0, true)
  }

  // BytesToStringBuilder, proved against DecodeFrom as written.
  method BytesToStringBuilder(key: array<Byte>, keyLength: int) returns (r: Result<seq<Char16>, KeyError>)
    ensures r == DecodeFrom(key[..], keyLength, 0, true)
  {
    ghost var k := key[..];
    var sb: seq<Char16> := [];
    var B := 0;
    assert PrependAll([], DecodeFrom(k, keyLength, 0, true)) == DecodeFrom(k, keyLength, 0, true) by {
      var r0 := DecodeFrom(k, keyLength, 0, true);
      if r0.Ok? { assert [] + r0.value == r0.value; }
    }
    while B < keyLength
      invariant 0 <= B <= key.Length
      invariant DecodeFrom(k, keyLength, 0, true) == PrependAll(sb, DecodeFrom(k, keyLength, B, true))
      decreases key.Length - B
    {
      if B == key.Length {
        return Err(IndexOutOfRange);
      }
      var k1 := key[B];
      var c: Char16;
      ghost var before := B;
      if k1 < 0x80 {
        c := k1;
      } else if k1 < 0xE0 {
        B := B + 1;
        if B == key.Length {
          return Err(IndexOutOfRange);
        }
        c := Unit2(k1, key[B]);
      } else {
        if B + 2 >= key.Length {
          return Err(IndexOutOfRange);
        }
        B := B + 2;
        c := Unit3AsWritten(k1, key[B - 1], key[B]);
      }
      B := B + 1;
      PrependAllStep(sb, c, DecodeFrom(k, keyLength, B, true));
      sb := sb + [c];
    }
    assert sb + [] == sb;
    r := Ok(sb);
  }

  function PrependAll(sb: seq<Char16>, r: Result<seq<Char16>, KeyError>): Result<seq<Char16>, KeyError>
  {
    if r.Ok? then Ok(sb + r.value) else r
  }

  lemma PrependAllStep(sb: seq<Char16>, c: Char16, r: Result<seq<Char16>, KeyError>)
    ensures PrependAll(sb, Prepend(c, r)) == PrependAll(sb + [c], r)
  {
    if r.Ok? {
      assert sb + ([c] + r.value) == (sb + [c]) + r.value;
    }
  }

  // BytesToString: the empty string for length 0, the first byte as a char for
  // any other length up to 1 (a negative length included), the builder beyond.
  method BytesToString(key: array<Byte>, keyLength: int) returns (r: Result<seq<Char16>, KeyError>)
    ensures r == KeyString(key[..], keyLength)
    ensures keyLength == 0 ==> r == Ok([])
    ensures keyLength == 1 && key.Length > 0 ==> r == Ok([key[0]])
  {
    if keyLength <= 1 {
      if keyLength == 0 {
        return Ok([]);
      }
      if key.Length == 0 {
        return Err(IndexOutOfRange);
      }
      return Ok([key[0]]);
    }
    r := BytesToStringBuilder(key, keyLength);
  }

  // Each unit's bytes decode back to the unit; a three-byte unit only when
  // its third byte is used.
  lemma DecodeUnit(c: Char16)
    ensures c < 0x80 ==> EncodeUnit(c)[0] < 0x80
    ensures 0x80 <= c < 0x800 ==> 0x80 <= EncodeUnit(c)[0] < 0xE0 && Unit2(EncodeUnit(c)[0], EncodeUnit(c)[1]) == c
    ensures 0x800 <= c ==> 0xE0 <= EncodeUnit(c)[0] && Unit3(EncodeUnit(c)[0], EncodeUnit(c)[1], EncodeUnit(c)[2]) == c
  {
    if 0x80 <= c < 0x800 {
      var e := EncodeUnit(c);
      assert e[0] % 32 == c / 64;
      assert e[1] % 64 == c % 64;
    } else if 0x800 <= c {
      var e := EncodeUnit(c);
      assert e[0] % 16 == c / 4096;
      assert e[1] % 64 == c / 64 % 64;
      assert e[2] % 64 == c % 64;
      assert c / 4096 * 64 + c / 64 % 64 == c / 64;
    }
  }

  predicate Below800(s: seq<Char16>)
  {
    forall i :: 0 <= i < |s| ==> s[i] < 0x800
  }

  // Decoding the bytes of s that follow any prefix gives s back; as written,
  // only when no unit of s needs three bytes.
  lemma {:induction false} DecodeEncodeFrom(p: seq<Byte>, s: seq<Char16>, asWritten: bool)
    requires asWritten ==> Below800(s)
    decreases |s|
    ensures DecodeFrom(p + EncodeKey(s), |p| + |EncodeKey(s)|, |p|, asWritten) == Ok(s)
  {
    var e := p + EncodeKey(s);
    if s != [] {
      var c := s[0];
      var u := EncodeUnit(c);
      var p' := p + u;
      assert e == p' + EncodeKey(s[1..]);
      assert |p| + |EncodeKey(s)| == |p'| + |EncodeKey(s[1..])|;
      assert forall j :: 0 <= j < |u| ==> e[|p| + j] == u[j];
      DecodeUnit(c);
      assert asWritten ==> s[0] < 0x800;
      DecodeEncodeFrom(p', s[1..], asWritten);
      assert [c] + s[1..] == s;
    }
  }

  // The corrected decoder inverts StringToBytes on every string.
  lemma DecodeEncode(s: seq<Char16>)
    ensures DecodeFrom(EncodeKey(s), |EncodeKey(s)|, 0, false) == Ok(s)
  {
    DecodeEncodeFrom([], s, false);
    assert [] + EncodeKey(s) == EncodeKey(s);
  }

  // BytesToString(StringToBytes(s)) == s for strings whose units are all
  // below 0x800.
  lemma KeyStringRoundTrip(s: seq<Char16>)
    requires Below800(s)
    ensures KeyString(EncodeKey(s), |EncodeKey(s)|) == Ok(s)
  {
    var e := EncodeKey(s);
    if |s| == 1 {
      assert e == EncodeUnit(s[0]);
    }
    if |e| > 1 {
      DecodeEncodeFrom([], s, true);
      assert [] + e == e;
    } else if s != [] {
      assert |EncodeUnit(s[0])| <= |e|;
      assert s == [s[0]] && e == [s[0]] by {
        assert s[1..] == [] by {
          EncodeKeyAppend([s[0]], s[1..]);
          assert s == [s[0]] + s[1..];
          assert EncodeKey([s[0]]) == EncodeUnit(s[0]) + EncodeKey([]);
        }
      }
    }
  }

  // As written, U+0800 comes back as U+0820.
  lemma ThreeByteAsWritten()
    ensures EncodeKey([0x800]) == [0xE0, 0xA0, 0x80]
    ensures KeyString(EncodeKey([0x800]), 3) == Ok([0x820])
  {
    assert EncodeKey([0x800]) == EncodeUnit(0x800) + EncodeKey([]);
    var e: seq<Byte> := [0xE0, 0xA0, 0x80];
    assert DecodeFrom(e, 3, 3, true) == Ok([]);
    assert Unit3AsWritten(0xE0, 0xA0, 0x80) == 0x820;
    assert DecodeFrom(e, 3, 0, true) == Prepend(0x820, DecodeFrom(e, 3, 3, true));
    assert KeyString(e, 3) == DecodeFrom(e, 3, 0, true);
    var u: seq<Char16> := [0x820];
    assert u + [] == u;
  }

  // ---------------------------------------------------------------------------
  // CPByteTrie.Check, on C# int arithmetic. `(Offset | Left) < 0` is the sign
  // bit of the OR, set exactly when one of the two is negative.

  datatype RangeError = NegativeOffsetOrLength | RangeExceedsBuffer

  predicate IsInt32(x: int)
  {
    BinaryFormat.InRange(BinaryFormat.Int32, x)
  }

  // As written: Offset + Left is an int addition, which wraps.
  function CheckAsWritten(bufferLength: nat, offset: int, length: int): Result<(), RangeError>
    requires IsInt32(offset) && IsInt32(length)
  {
    if offset < 0 || length < 0 then Err(NegativeOffsetOrLength)
    else if BinaryFormat.Cast(BinaryFormat.Int32, offset + length) > bufferLength then Err(RangeExceedsBuffer)
    else Ok(())
  }

  // An offset of int.MaxValue and a length of 1 wrap to int.MinValue and pass.
  lemma CheckAsWrittenOverflow()
    ensures IsInt32(0x7FFF_FFFF) && IsInt32(1)
    ensures CheckAsWritten(0, 0x7FFF_FFFF, 1).Ok?
  {
    assert BinaryFormat.Cast(BinaryFormat.Int32, 0x8000_0000) == -0x8000_0000;
  }

  // Check, with the sum taken without overflow.
  function CheckRange(bufferLength: nat, offset: int, length: int): (r: Result<(), RangeError>)
    ensures r.Ok? <==> 0 <= offset && 0 <= length && offset + length <= bufferLength
    ensures r.Err? ==> (r.error == NegativeOffsetOrLength <==> offset < 0 || length < 0)
  {
    if offset < 0 || length < 0 then Err(NegativeOffsetOrLength)
    else if offset + length > bufferLength then Err(RangeExceedsBuffer)
    else Ok(())
  }

  // The two agree whenever the int addition does not wrap.
  lemma CheckAgrees(bufferLength: nat, offset: int, length: int)
    requires IsInt32(offset) && IsInt32(length) && IsInt32(offset + length)
    ensures CheckAsWritten(bufferLength, offset, length) == CheckRange(bufferLength, offset, length)
  {
  }

  // ---------------------------------------------------------------------------
  // The trie object: its root node and _count.

  // CPMode as its two flags: Create adds a missing key, Set (here replace) replaces the
  // value of a present one. Find is neither.
  datatype CPMode = CPMode(create: bool, replace: bool)

  const Find := CPMode(false, false)
  const Create := CPMode(true, false)

  datatype TrieError = BadRange(range: RangeError) | KeyExists

  class CPTrie<T> {
    // _head, None standing for null
    var head: Option<map<seq<Byte>, T>>
    // _count
    var count: int

    ghost predicate Valid()
      reads this
    {
      count == |Entries()| && (head.Some? ==> |head.value| > 0)
    }

    function Entries(): map<seq<Byte>, T>
      reads this
    {
      if head.None? then map[] else head.value
    }

    constructor ()
      ensures Valid() && Entries() == map[] && count == 0
    {
      head := None;
      count := 0;
    }

    // Set(ref key, ref value, mode): returns whether the key existed and, in
    // valueOut, the value the key had, or value when it had none.
    method Set(key: seq<Byte>, value: T, mode: CPMode) returns (existed: bool, valueOut: T)
      requires Valid()
      modifies this
      ensures Valid()
      ensures existed <==> key in old(Entries())
      ensures valueOut == if existed then old(Entries())[key] else value
      ensures Entries() == if existed then (if mode.replace then old(Entries())[key := value] else old(Entries()))
                           else if mode.create then old(Entries())[key := value] else old(Entries())
      ensures count == old(count) + (if !existed && mode.create then 1 else 0)
    {
      if head.Some? {
        var m := head.value;
        existed := key in m;
        valueOut := if existed then m[key] else value;
        if (existed && mode.replace) || (!existed && mode.create) {
          head := Some(m[key := value]);
        }
        if !existed && mode.create {
          count := count + 1;
        }
        return;
      } else if mode.create {
        head := Some(map[key := value]);
        count := 1;
      }
      existed, valueOut := false, value;
    }

    // Find(ref key, ref value): Set in Find mode, which changes nothing.
    method Lookup(key: seq<Byte>, value: T) returns (found: bool, valueOut: T)
      requires Valid()
      ensures found <==> key in Entries()
      ensures valueOut == if found then Entries()[key] else value
    {
      if head.Some? {
        var m := head.value;
        found := key in m;
        valueOut := if found then m[key] else value;
        return;
      }
      found, valueOut := false, value;
    }

    // Remove(ref key, ref value): _count goes down only when the key was there;
    // the root becomes null when the last key goes.
    method Remove(key: seq<Byte>, value: T) returns (removed: bool, valueOut: T)
      requires Valid()
      modifies this
      ensures Valid()
      ensures removed <==> key in old(Entries())
      ensures valueOut == if removed then old(Entries())[key] else value
      ensures Entries() == old(Entries()) - {key}
      ensures count == old(count) - (if removed then 1 else 0)
      ensures count == 0 <==> head.None?
    {
      removed, valueOut := false, value;
      if head.Some? {
        var m := head.value;
        if key in m {
          valueOut := m[key];
          var m' := m - {key};
          assert m'.Keys == m.Keys - {key};
          head := if |m'| == 0 then None else Some(m');
          count := count - 1;
          removed := true;
          return;
        }
      }
      assert key !in Entries();
      assert Entries() - {key} == Entries();
    }

    method Clear()
      modifies this
      ensures Valid() && Entries() == map[] && count == 0 && head.None?
    {
      head := None;
      count := 0;
    }

    // CPByteTrie.Add(key, offset, length, value): the key is
    // buffer[offset..offset + length], checked first; it must be new.
    method AddRange(buffer: seq<Byte>, offset: int, length: int, value: T) returns (r: Result<(), TrieError>)
      requires Valid()
      modifies this
      ensures Valid()
      ensures r.Err? && r.error.BadRange? <==> CheckRange(|buffer|, offset, length).Err?
      ensures r.Err? && r.error.BadRange? ==> Entries() == old(Entries()) && count == old(count)
      ensures r != Err(KeyExists) || (buffer[offset..offset + length] in old(Entries()) && Entries() == old(Entries()))
      ensures r.Ok? ==> buffer[offset..offset + length] !in old(Entries())
                        && Entries() == old(Entries())[buffer[offset..offset + length] := value]
                        && count == old(count) + 1
    {
      var check := CheckRange(|buffer|, offset, length);
      if check.Err? {
        return Err(BadRange(check.error));
      }
      var existed, _ := Set(buffer[offset..offset + length], value, Create);
      if existed {
        return Err(KeyExists);
      }
      return Ok(());
    }

    // CPByteTrie.TryAdd(key, offset, length, ref value): adds the key only when
    // it is new; otherwise valueOut is the value already there.
    method TryAddRange(buffer: seq<Byte>, offset: int, length: int, value: T)
      returns (r: Result<bool, RangeError>, valueOut: T)
      requires Valid()
      modifies this
      ensures Valid()
      ensures r.Err? <==> CheckRange(|buffer|, offset, length).Err?
      ensures r.Err? ==> Entries() == old(Entries()) && valueOut == value
      ensures r.Ok? ==> (r.value <==> buffer[offset..offset + length] !in old(Entries()))
      ensures r.Ok? && r.value ==>
        Entries() == old(Entries())[buffer[offset..offset + length] := value] && count == old(count) + 1 && valueOut == value
      ensures r.Ok? && !r.value ==>
        Entries() == old(Entries()) && count == old(count) && valueOut == old(Entries())[buffer[offset..offset + length]]
    {
      var check := CheckRange(|buffer|, offset, length);
      if check.Err? {
        return Err(check.error), value;
      }
      var existed;
      existed, valueOut := Set(buffer[offset..offset + length], value, Create);
      r := Ok(!existed);
    }

    // CPByteTrie.TryAdd(key, offset, length, value) as written: it passes 0 and
    // key.Length on, so the whole buffer is the key whatever offset and length say.
    method TryAddIgnoringRange(buffer: seq<Byte>, offset: int, length: int, value: T) returns (added: bool)
      requires Valid()
      modifies this
      ensures Valid()
      ensures added <==> buffer !in old(Entries())
      ensures Entries() == if added then old(Entries())[buffer := value] else old(Entries())
    {
      var r, _ := TryAddRange(buffer, 0, |buffer|, value);
      assert buffer[0..|buffer|] == buffer;
      added := r.value;
    }
  }
}
