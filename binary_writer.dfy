// SyncBinary.WriterState: the writer side of the codec. The output span of
// the IBufferWriter is abstracted as the sequence of bytes the write index
// `_i` has moved past; GetOutSpan only reserves room, which the model does not
// need, and clears the leftover-bit count of the bitfield packer.
module SyncBinaryWriter {
  import opened Wrappers
  import opened BinaryFormat
  import BinaryRoundTrip

  // The two list markers of Options.Markers that Write(string) looks at.
  datatype WriterOptions = WriterOptions(listStartMarker: bool, listEndMarker: bool)

  // ---------------------------------------------------------------------------
  // Byte layouts used by the writer methods.

  // The low k bytes of x, least significant first.
  function LittleEndian(x: nat, k: nat): (r: seq<Byte>)
    ensures |r| == k
  {
    if k == 0 then [] else [LowByte(x)] + LittleEndian(x / 256, k - 1)
  }

  // The value of a little-endian byte string.
  function LittleEndianValue(s: seq<Byte>): nat
  {
    if s == [] then 0 else s[0] + 256 * LittleEndianValue(s[1..])
  }

  // What Write(T) appends for the integer types that have no overload of
  // their own: sbyte, short, byte and ushort convert to int.
  function EncodeInt(t: IntType, v: int): (r: seq<Byte>)
    requires InRange(t, v)
  {
    match t
    case UInt32 => EncodeUInt32(v)
    case Int64 => EncodeInt64(v)
    case UInt64 => EncodeUInt64(v)
    case _ => EncodeInt32(v)
  }

  // What Write(string) appends for a string whose UTF-8 form is utf8.
  function StringFrame(opt: WriterOptions, utf8: seq<Byte>): seq<Byte>
    requires |utf8| < 0x8000_0000
  {
    Framed(opt, EncodeSignedOrUnsigned32(|utf8|, |utf8|), utf8)
  }

  // The optional list markers around a length prefix and its payload.
  function Framed(opt: WriterOptions, prefix: seq<Byte>, payload: seq<Byte>): seq<Byte>
  {
    (if opt.listStartMarker then ['[' as int] else [])
    + prefix + payload
    + (if opt.listEndMarker then [']' as int] else [])
  }

  // b ORed into the last byte of w.
  function OrLast(w: seq<Byte>, b: Byte): (r: seq<Byte>)
    requires |w| > 0
    ensures |r| == |w| && r[..|w| - 1] == w[..|w| - 1]
  {
    w[|w| - 1 := OrByte(w[|w| - 1], b)]
  }

  // `(int)bitfieldSize >> 3`, the count of middle bytes WriteLittleEndianBytes
  // loops down from: a size of 2^31 or more casts to a negative int, and then
  // no middle byte is written.
  function MiddleBytes(s: nat): nat
  {
    var n := Cast(Int32, s) / 8;
    if n > 0 then n else 0
  }

  // The state WriteBitfield(value, size) leaves: the bytes written and the
  // leftover-bit count, from the bytes written before and the old count.
  function BitfieldWrite(w: seq<Byte>, bitsLeft: nat, value: nat, size: nat): (r: (seq<Byte>, nat))
    requires bitsLeft < 8 && (bitsLeft > 0 ==> |w| > 0)
  {
    if bitsLeft != 0 && bitsLeft >= size then
      (OrLast(w, LowByte((value % Pow2(size)) * Pow2(8 - bitsLeft))), bitsLeft - size)
    else
      var w1 := if bitsLeft != 0 then OrLast(w, LowByte(value * Pow2(8 - bitsLeft))) else w;
      var v := if bitsLeft != 0 then ShiftRight(value, bitsLeft) else value;
      var s := if bitsLeft != 0 then size - bitsLeft else size;
      var w2 := if s >= 8 then w1 + LittleEndian(v, MiddleBytes(s)) else w1;
      var tail := s % 8;
      if tail != 0 then (w2 + [LowByte(v % Pow2(tail))], 8 - tail) else (w2, 0)
  }

  // The effect of a run of WriteBitfield calls, each a (value, size) pair.
  function BitfieldRun(w: seq<Byte>, bitsLeft: nat, fields: seq<(nat, nat)>): (r: (seq<Byte>, nat))
    requires bitsLeft < 8 && (bitsLeft > 0 ==> |w| > 0)
    ensures r.1 < 8 && (r.1 > 0 ==> |r.0| > 0)
    decreases |fields|
  {
    if fields == [] then (w, bitsLeft)
    else
      var step := BitfieldWrite(w, bitsLeft, fields[0].0, fields[0].1);
      BitfieldAccounting(w, bitsLeft, fields[0].0, fields[0].1);
      BitfieldRun(step.0, step.1, fields[1..])
  }

  function SizeSum(fields: seq<(nat, nat)>): nat
  {
    if fields == [] then 0 else fields[0].1 + SizeSum(fields[1..])
  }

  // ---------------------------------------------------------------------------
  // Lemmas about the layouts.

  // The j-th byte of LowBytes(x, k), counted from the most significant.
  lemma {:induction false} LowBytesAt(x: nat, k: nat, j: nat)
    requires j < k
    ensures LowBytes(x, k)[j] == LowByte(x / Pow2(8 * (k - 1 - j)))
  {
    if j < k - 1 {
      LowBytesAt(x / 256, k - 1, j);
      assert Pow2(8) == 256 by { Pow2Facts(); }
      Pow2Add(8, 8 * (k - 2 - j));
      assert 8 + 8 * (k - 2 - j) == 8 * (k - 1 - j);
      DivDiv(x, 256, Pow2(8 * (k - 2 - j)));
    }
  }

  // A little-endian string of k bytes reads back as x modulo 2^(8k).
  lemma {:induction false} LittleEndianRoundTrip(x: nat, k: nat)
    ensures LittleEndianValue(LittleEndian(x, k)) == x % Pow2(8 * k)
  {
    if k > 0 {
      LittleEndianRoundTrip(x / 256, k - 1);
      var rest := LittleEndian(x / 256, k - 1);
      assert LittleEndian(x, k)[1..] == rest;
      assert Pow2(8) == 256 by { Pow2Facts(); }
      Pow2Add(8, 8 * (k - 1));
      assert 8 + 8 * (k - 1) == 8 * k;
      ModSplit(x, 256, Pow2(8 * (k - 1)));
    }
  }

  // Every WriteBitfield call of fewer than 2^31 bits keeps the bit
  // accounting: the bits written so far are the whole bytes minus the unused
  // top bits of the last byte. Whatever the size, the leftover-bit count stays
  // below 8 and is nonzero only with a byte written.
  lemma BitfieldAccounting(w: seq<Byte>, bitsLeft: nat, value: nat, size: nat)
    requires bitsLeft < 8 && (bitsLeft > 0 ==> |w| > 0)
    ensures var r := BitfieldWrite(w, bitsLeft, value, size);
      (size < 0x8000_0000 ==> 8 * |r.0| - r.1 == 8 * |w| - bitsLeft + size)
      && r.1 < 8 && (r.1 > 0 ==> |r.0| > 0) && |r.0| >= |w|
  {
    if !(bitsLeft != 0 && bitsLeft >= size) {
      var s := if bitsLeft != 0 then size - bitsLeft else size;
      if s < 0x8000_0000 {
        assert MiddleBytes(s) == s / 8;
      }
      assert s == (s / 8) * 8 + s % 8;
    }
  }

  // A remaining size of 2^31 to 2^32 - 1 bits, after the last byte's unused
  // bits are filled, writes no middle byte: only the tail byte follows, when
  // the size is not a multiple of 8.
  lemma BitfieldHugeSize(w: seq<Byte>, bitsLeft: nat, value: nat, size: nat)
    requires bitsLeft < 8 && (bitsLeft > 0 ==> |w| > 0)
    requires 0x8000_0000 <= size - bitsLeft < 0x1_0000_0000
    ensures var r := BitfieldWrite(w, bitsLeft, value, size);
      |r.0| == |w| + (if (size - bitsLeft) % 8 == 0 then 0 else 1)
      && (|w| > 0 ==> r.0[..|w| - 1] == w[..|w| - 1])
  {
    NoMiddleBytes(size - bitsLeft);
  }

  lemma NoMiddleBytes(s: nat)
    requires 0x8000_0000 <= s < 0x1_0000_0000
    ensures MiddleBytes(s) == 0
  {
    assert Cast(Int32, s) == s - 0x1_0000_0000;
  }

  // WriteBitfield(0, 0x8000_0000) at a byte boundary writes nothing.
  lemma BitfieldHugeExample()
    ensures BitfieldWrite([], 0, 0, 0x8000_0000) == ([], 0)
  {
    BitfieldHugeSize([], 0, 0, 0x8000_0000);
  }

  // Starting at a byte boundary, fields whose sizes sum to a multiple of 8
  // emit exactly sum / 8 bytes and end at a byte boundary again.
  lemma {:induction false} BitfieldRunAccounting(w: seq<Byte>, bitsLeft: nat, fields: seq<(nat, nat)>)
    requires bitsLeft < 8 && (bitsLeft > 0 ==> |w| > 0)
    requires forall k :: 0 <= k < |fields| ==> fields[k].1 < 0x8000_0000
    ensures var r := BitfieldRun(w, bitsLeft, fields);
      8 * |r.0| - r.1 == 8 * |w| - bitsLeft + SizeSum(fields)
    decreases |fields|
  {
    if fields != [] {
      var step := BitfieldWrite(w, bitsLeft, fields[0].0, fields[0].1);
      BitfieldAccounting(w, bitsLeft, fields[0].0, fields[0].1);
      BitfieldRunAccounting(step.0, step.1, fields[1..]);
    }
  }

  lemma BitfieldRunOfWholeBytes(w: seq<Byte>, fields: seq<(nat, nat)>)
    requires SizeSum(fields) % 8 == 0
    requires forall k :: 0 <= k < |fields| ==> fields[k].1 < 0x8000_0000
    ensures BitfieldRun(w, 0, fields).1 == 0
    ensures |BitfieldRun(w, 0, fields).0| == |w| + SizeSum(fields) / 8
  {
    BitfieldRunAccounting(w, 0, fields);
    var r := BitfieldRun(w, 0, fields);
    var n := SizeSum(fields);
    assert 8 * |r.0| - r.1 == 8 * |w| + n;
    assert n == 8 * (n / 8);
  }

  // A field that fits in the unused bits of the last byte emits no byte,
  // leaves every earlier byte alone, and lands at bit offset 8 - bitsLeft.
  lemma BitfieldFitsInLastByte(w: seq<Byte>, bitsLeft: nat, value: nat, size: nat)
    requires 0 < bitsLeft < 8 && |w| > 0 && size <= bitsLeft
    ensures var r := BitfieldWrite(w, bitsLeft, value, size);
      |r.0| == |w| && r.0[..|w| - 1] == w[..|w| - 1]
      && (value % Pow2(size)) * Pow2(8 - bitsLeft) < 256
      && r.0[|w| - 1] == OrByte(w[|w| - 1], LowByte((value % Pow2(size)) * Pow2(8 - bitsLeft)))
      && r.1 == bitsLeft - size
  {
    var a, c := value % Pow2(size), Pow2(8 - bitsLeft);
    var m := a * c;
    assert m < 256 by {
      MulLe(a + 1, Pow2(size), c);
      assert (a + 1) * c == m + c;
      Pow2Add(size, 8 - bitsLeft);
      Pow2Monotone(size + (8 - bitsLeft), 8);
      assert Pow2(8) == 256 by { Pow2Facts(); }
    }
  }

  // A field that does not fit leaves bits-left at 8 - (remaining size mod 8),
  // or 0 at a byte boundary, and a freshly emitted last byte has only the low
  // 8 - bitsLeft bits in use.
  lemma BitfieldSpills(w: seq<Byte>, bitsLeft: nat, value: nat, size: nat)
    requires bitsLeft < 8 && (bitsLeft > 0 ==> |w| > 0) && !(bitsLeft != 0 && size <= bitsLeft)
    ensures var r := BitfieldWrite(w, bitsLeft, value, size);
      var s := size - bitsLeft;
      r.1 == (if s % 8 == 0 then 0 else 8 - s % 8)
      && (r.1 > 0 ==> r.0[|r.0| - 1] < Pow2(8 - r.1))
  {
    var s := size - bitsLeft;
    if s % 8 != 0 {
      var v := if bitsLeft != 0 then ShiftRight(value, bitsLeft) else value;
      assert Pow2(s % 8) <= 256 by {
        Pow2Monotone(s % 8, 8);
        assert Pow2(8) == 256 by { Pow2Facts(); }
      }
      assert LowByte(v % Pow2(s % 8)) == v % Pow2(s % 8);
    }
  }

  // The tail byte of a field of 8 or more bits repeats the low bits of the
  // value instead of carrying the bits above those the middle bytes hold: a
  // 12-bit field of 0x100 is written as 00 00, not 00 01.
  lemma BitfieldTailRepeatsLowBits()
    ensures BitfieldWrite([], 0, 0x100, 12).0 == [0, 0]
    ensures LittleEndian(0x100, 2) == [0, 1]
  {
    assert Pow2(4) == 16 by { Pow2Facts(); }
    assert LittleEndian(0x100, 1) == [0];
  }

  lemma FramedAppend(w0: seq<Byte>, opt: WriterOptions, w1: seq<Byte>, w2: seq<Byte>, w3: seq<Byte>,
                     prefix: seq<Byte>, payload: seq<Byte>)
    requires w1 == w0 + (if opt.listStartMarker then ['[' as int] else [])
    requires w2 == w1 + prefix + payload
    requires w3 == w2 + (if opt.listEndMarker then [']' as int] else [])
    ensures w3 == w0 + Framed(opt, prefix, payload)
  {
  }

  // The first byte of the 32-bit length prefix of Write(string) is all
  // Write(uint) would have written.
  lemma StringLengthIsUInt32(n: nat)
    requires n < 0x8000_0000
    ensures EncodeSignedOrUnsigned32(n, n) == EncodeUInt32(n)
  {
    if n < 128 {
      OneByte32(n);
    }
  }

  // The length prefix of Write(string) reads back as the number of UTF-8
  // bytes, and the cursor then stands at the first of them.
  lemma StringLengthReadsBack(ropt: ReadOptions, utf8: seq<Byte>, rest: seq<Byte>)
    requires |utf8| < 0x8000_0000
    ensures var prefix := EncodeSignedOrUnsigned32(|utf8|, |utf8|);
      DecodeIntOrNull(UInt32, ropt, prefix + utf8 + rest) == Ok(Decoded(Some(|utf8|), |prefix|))
  {
    var prefix := EncodeSignedOrUnsigned32(|utf8|, |utf8|);
    StringLengthIsUInt32(|utf8|);
    BinaryRoundTrip.RoundTripUInt32(UInt32, ropt, |utf8|, utf8 + rest);
    assert prefix + utf8 + rest == prefix + (utf8 + rest);
  }

  // ---------------------------------------------------------------------------
  // The writer.

  class WriterState {
    const opt: WriterOptions
    // The bytes written so far (_buf[.._i] after everything flushed before).
    var written: seq<Byte>
    // _bitfieldBitsLeftInByte: unused high bits of the last byte written.
    var bitsLeft: nat

    ghost predicate Valid()
      reads this
    {
      bitsLeft < 8 && (bitsLeft > 0 ==> |written| > 0)
    }

    constructor(opt: WriterOptions)
      ensures Valid() && this.opt == opt && written == [] && bitsLeft == 0
    {
      this.opt := opt;
      written := [];
      bitsLeft := 0;
    }

    // Reserving output space ends any bitfield in progress.
    method GetOutSpan(requiredBytes: int)
      modifies this
      ensures written == old(written) && bitsLeft == 0
    {
      bitsLeft := 0;
    }

    // `span[_i++] = b`.
    method Emit(b: Byte)
      modifies this
      ensures written == old(written) + [b] && bitsLeft == old(bitsLeft)
    {
      written := written + [b];
    }

    method WriteNull()
      modifies this
      ensures Valid() && written == old(written) + [0xFF] && bitsLeft == 0
    {
      GetOutSpan(1);
      Emit(255);
    }

    method WriteBool(value: bool)
      modifies this
      ensures Valid() && written == old(written) + [if value then 1 else 0] && bitsLeft == 0
    {
      GetOutSpan(1);
      Emit(if value then 1 else 0);
    }

    method WriteNullableBool(value: Option<bool>)
      modifies this
      ensures Valid() && bitsLeft == 0
      ensures written == old(written) + [if value.None? then 0xFF else if value.value then 1 else 0]
    {
      GetOutSpan(1);
      Emit(if value.None? then 255 else if value.value then 1 else 0);
    }

    // The WriteNullable overloads of the integer types.
    method WriteNullable(t: IntType, num: Option<int>)
      requires num.Some? ==> InRange(t, num.value)
      modifies this
      ensures Valid() && bitsLeft == 0
      ensures written == old(written) + (if num.None? then [0xFF] else EncodeInt(t, num.value))
    {
      if num.None? {
        WriteNull();
      } else {
        match t
        case UInt32 => WriteUInt32(num.value);
        case Int64 => WriteInt64(num.value);
        case UInt64 => WriteUInt64(num.value);
        case _ =>
          assert InRange(Int32, num.value);
          WriteInt32(num.value);
      }
    }

    method WriteInt32(num: int)
      requires InRange(Int32, num)
      modifies this
      ensures Valid() && written == old(written) + EncodeInt32(num) && bitsLeft == 0
    {
      Int32FastPath(num);
      if Cast(UInt32, num) < 64 {
        GetOutSpan(1);
        Emit(LowByte(num));
      } else {
        WriteSignedOrUnsigned32(Cast(UInt32, num), Cast(UInt32, if num >= 0 then num else -num - 1));
      }
    }

    method WriteUInt32(num: int)
      requires InRange(UInt32, num)
      modifies this
      ensures Valid() && written == old(written) + EncodeUInt32(num) && bitsLeft == 0
    {
      if num < 128 {
        GetOutSpan(1);
        Emit(num);
      } else {
        WriteSignedOrUnsigned32(num, num);
      }
    }

    method WriteInt64(num: int)
      requires InRange(Int64, num)
      modifies this
      ensures Valid() && written == old(written) + EncodeInt64(num) && bitsLeft == 0
    {
      if Cast(UInt32, num) < 64 {
        GetOutSpan(1);
        Emit(LowByte(num));
      } else {
        WriteSignedOrUnsigned32(Cast(UInt32, num), Cast(UInt32, if num >= 0 then num else -num - 1));
      }
    }

    method WriteUInt64(num: int)
      requires InRange(UInt64, num)
      modifies this
      ensures Valid() && written == old(written) + EncodeUInt64(num) && bitsLeft == 0
    {
      if num < 128 {
        GetOutSpan(1);
        Emit(num);
      } else {
        WriteSignedOrUnsigned64(num, num);
      }
    }

    // WriteSignedOrUnsigned(uint, uint): the length comes from the highest
    // one-bit of nonNegative, the bits from num.
    method WriteSignedOrUnsigned32(num: nat, nonNegative: nat)
      requires num < 0x1_0000_0000 && nonNegative < 0x1_0000_0000
      modifies this
      ensures Valid() && written == old(written) + EncodeSignedOrUnsigned32(num, nonNegative) && bitsLeft == 0
    {
      Tiers32(num);
      ghost var w0 := written;
      var p := MsbPos(nonNegative);
      if 28 <= p {
        GetOutSpan(5);
        // span[_i] .. span[_i + 4], then _i += 5
        written := written + [
          if num == nonNegative then 0xF0 else 0xFF,
          LowByte(num / 0x100_0000),
          LowByte(num / 0x1_0000),
          LowByte(num / 0x100),
          LowByte(num)];
        assert written == w0 + [if num == nonNegative then 0xF0 else 0xFF] + LowBytes(num, 4);
      } else if 21 <= p {
        GetOutSpan(4);
        // span[_i] .. span[_i + 3], then _i += 4
        written := written + [
          0xE0 + (num / 0x100_0000) % 0x10,
          LowByte(num / 0x1_0000),
          LowByte(num / 0x100),
          LowByte(num)];
        assert written == w0 + TierBytes(3, num);
      } else if 14 <= p {
        GetOutSpan(3);
        // span[_i] .. span[_i + 2], then _i += 3
        written := written + [
          0xC0 + (num / 0x1_0000) % 0x20,
          LowByte(num / 0x100),
          LowByte(num)];
        assert written == w0 + TierBytes(2, num);
      } else if 7 <= p {
        GetOutSpan(2);
        // span[_i] .. span[_i + 1], then _i += 2
        written := written + [
          0x80 + (num / 0x100) % 0x40,
          LowByte(num)];
        assert written == w0 + TierBytes(1, num);
      } else {
        GetOutSpan(1);
        Emit(num % 0x80);
        assert written == w0 + TierBytes(0, num);
      }
    }

    // WriteSignedOrUnsigned(ulong, ulong). The 9- and 10-byte large form
    // fills the span but advances `_i` only past its first byte, and only
    // when num has 57 or more significant bits.
    method WriteSignedOrUnsigned64(num: nat, nonNegative: nat)
      requires num < 0x1_0000_0000_0000_0000 && nonNegative < 0x1_0000_0000_0000_0000
      modifies this
      ensures Valid() && written == old(written) + EncodeSignedOrUnsigned64(num, nonNegative) && bitsLeft == 0
    {
      if num < 0x1_0000_0000 {
        WriteSignedOrUnsigned32(num, nonNegative % 0x1_0000_0000);
      } else {
        ghost var w0 := written;
        var p := MsbPos(nonNegative);
        if 42 <= p <= 48 {
          GetOutSpan(7);
          // span[_i] .. span[_i + 6], then _i += 7
          written := written + [
            0xFC + (num / 0x1_0000_0000_0000) % 2,
            LowByte(num / 0x100_0000_0000),
            LowByte(num / 0x1_0000_0000),
            LowByte(num / 0x100_0000),
            LowByte(num / 0x1_0000),
            LowByte(num / 0x100),
            LowByte(num)];
          Tier6(num);
          assert written == w0 + TierBytes(6, num);
        } else if 35 <= p <= 41 {
          GetOutSpan(6);
          // span[_i] .. span[_i + 5], then _i += 6
          written := written + [
            0xF8 + (num / 0x100_0000_0000) % 4,
            LowByte(num / 0x1_0000_0000),
            LowByte(num / 0x100_0000),
            LowByte(num / 0x1_0000),
            LowByte(num / 0x100),
            LowByte(num)];
          Tier5(num);
          assert written == w0 + TierBytes(5, num);
        } else if 28 <= p <= 34 {
          GetOutSpan(5);
          // span[_i] .. span[_i + 4], then _i += 5
          written := written + [
            0xF0 + (num / 0x1_0000_0000) % 8,
            LowByte(num / 0x100_0000),
            LowByte(num / 0x1_0000),
            LowByte(num / 0x100),
            LowByte(num)];
          Tier4(num);
          assert written == w0 + TierBytes(4, num);
        } else {
          var numberSize := if p >= 56 then 10 else 9;
          GetOutSpan(numberSize);
          if p >= 56 {
            Emit(0xFE);
          }
        }
      }
    }

    // WriteLittleEndianBytes(num, numBytes): reserves the space, then writes.
    method WriteLittleEndianBytes(num: nat, numBytes: int)
      requires num < 0x1_0000_0000_0000_0000
      modifies this
      ensures Valid() && bitsLeft == 0
      ensures written == old(written) + LittleEndian(num, if numBytes > 0 then numBytes else 0)
    {
      GetOutSpan(numBytes);
      WriteLittleEndianBytesTo(num, numBytes);
    }

    // WriteLittleEndianBytes(num, numBytes, outBuf): numBytes bytes, least
    // significant first, into space reserved before.
    method WriteLittleEndianBytesTo(num: nat, numBytes: int)
      modifies this
      ensures written == old(written) + LittleEndian(num, if numBytes > 0 then numBytes else 0)
      ensures bitsLeft == old(bitsLeft)
    {
      var n := num;
      var count := numBytes;
      while count > 0
        invariant count <= 0 ==> written == old(written) + LittleEndian(num, if numBytes > 0 then numBytes else 0)
        invariant count > 0 ==> old(written) + LittleEndian(num, numBytes) == written + LittleEndian(n, count)
        invariant bitsLeft == old(bitsLeft)
      {
        Emit(LowByte(n));
        n := n / 256;
        count := count - 1;
      }
    }

    // Write(ReadOnlySpan<char>), given the string's UTF-8 bytes.
    method WriteString(utf8: seq<Byte>)
      requires |utf8| < 0x8000_0000
      modifies this
      ensures Valid() && bitsLeft == 0
      ensures written == old(written) + StringFrame(opt, utf8)
    {
      var wtf8size := |utf8|;
      GetOutSpan(7 + wtf8size);
      ghost var w0 := written;
      if opt.listStartMarker {
        Emit('[' as int);
      }
      ghost var w1 := written;
      WriteSignedOrUnsigned32(wtf8size, wtf8size);
      written := written + utf8;
      ghost var w2 := written;
      if opt.listEndMarker {
        Emit(']' as int);
      }
      FramedAppend(w0, opt, w1, w2, written, EncodeSignedOrUnsigned32(|utf8|, |utf8|), utf8);
    }

    // `_buf.Span[_i - 1] |= b`.
    method OrIntoLast(b: Byte)
      requires |written| > 0
      modifies this
      ensures written == OrLast(old(written), b) && bitsLeft == old(bitsLeft)
    {
      written := written[|written| - 1 := OrByte(written[|written| - 1], b)];
    }

    // WriteBitfield(uint, uint) and WriteBitfield(ulong, uint).
    method WriteBitfield(value: nat, bitfieldSize: nat)
      requires Valid()
      requires value < 0x1_0000_0000_0000_0000 && bitfieldSize < 0x1_0000_0000
      modifies this
      ensures Valid()
      ensures (written, bitsLeft) == BitfieldWrite(old(written), old(bitsLeft), value, bitfieldSize)
    {
        ghost var w0, b0 := written, bitsLeft;
      var v := value;
      var size := bitfieldSize;
      var left := bitsLeft;
      if left != 0 {
        if left >= size {
          bitsLeft := left - size;
          OrIntoLast(LowByte((v % Pow2(size)) * Pow2(8 - left)));
          return;
        } else {
          OrIntoLast(LowByte(v * Pow2(8 - left)));
          v := ShiftRight(v, left);
          size := size - left;
        }
      }
      ghost var w1, s := written, size;
      var minNumBytesLeft := Cast(Int32, size) / 8;
      GetOutSpan(minNumBytesLeft + 1);
      if size >= 8 {
        WriteLittleEndianBytesTo(v, minNumBytesLeft);
        size := size % 8;
      }
      assert written == (if s >= 8 then w1 + LittleEndian(v, MiddleBytes(s)) else w1);
      assert size == s % 8;
      if size != 0 {
        Emit(LowByte(v % Pow2(size)));
        bitsLeft := 8 - size;
      }
      BitfieldAccounting(w0, b0, value, bitfieldSize);
    }
  }

  // The unrolled bytes the writer methods emit are LowBytes.
  lemma LowBytesShape(x: nat, k: nat)
    requires 1 <= k <= 6
    ensures forall j :: 0 <= j < k ==> LowBytes(x, k)[j] == LowByte(x / Pow2(8 * (k - 1 - j)))
  {
    forall j | 0 <= j < k
      ensures LowBytes(x, k)[j] == LowByte(x / Pow2(8 * (k - 1 - j)))
    {
      LowBytesAt(x, k, j);
    }
  }

  // The tags of the 32-bit encoder: 10xxxxxx, 110xxxxx, 1110xxxx.
  lemma Tiers32(x: nat)
    ensures TierBytes(1, x) == [0x80 + (x / 0x100) % 0x40, LowByte(x)]
    ensures TierBytes(2, x) == [0xC0 + (x / 0x1_0000) % 0x20, LowByte(x / 0x100), LowByte(x)]
    ensures TierBytes(3, x) == [0xE0 + (x / 0x100_0000) % 0x10, LowByte(x / 0x1_0000), LowByte(x / 0x100), LowByte(x)]
    ensures LowBytes(x, 4) == [LowByte(x / 0x100_0000), LowByte(x / 0x1_0000), LowByte(x / 0x100), LowByte(x)]
    ensures TierBytes(0, x) == [x % 0x80]
  {
    Tier1(x);
    Tier2(x);
    Tier3(x);
    Low4(x);
    TierZero(x);
  }

  lemma Tier1(x: nat)
    ensures TierBytes(1, x) == [0x80 + (x / 0x100) % 0x40, LowByte(x)]
  {
    assert Pow2(0) == 1 && Pow2(6) == 0x40 && Pow2(7) == 0x80 && Pow2(8) == 0x100 by { Pow2Facts(); }
    LowBytesShape(x, 1);
  }

  lemma Tier2(x: nat)
    ensures TierBytes(2, x) == [0xC0 + (x / 0x1_0000) % 0x20, LowByte(x / 0x100), LowByte(x)]
  {
    assert Pow2(0) == 1 && Pow2(5) == 0x20 && Pow2(6) == 0x40 && Pow2(8) == 0x100
      && Pow2(16) == 0x1_0000 by { Pow2Facts(); }
    LowBytesShape(x, 2);
  }

  lemma Tier3(x: nat)
    ensures TierBytes(3, x) == [0xE0 + (x / 0x100_0000) % 0x10, LowByte(x / 0x1_0000), LowByte(x / 0x100), LowByte(x)]
  {
    assert Pow2(0) == 1 && Pow2(4) == 0x10 && Pow2(5) == 0x20 && Pow2(8) == 0x100
      && Pow2(16) == 0x1_0000 && Pow2(24) == 0x100_0000 by { Pow2Facts(); }
    LowBytesShape(x, 3);
  }

  lemma Low4(x: nat)
    ensures LowBytes(x, 4) == [LowByte(x / 0x100_0000), LowByte(x / 0x1_0000), LowByte(x / 0x100), LowByte(x)]
  {
    assert Pow2(0) == 1 && Pow2(8) == 0x100 && Pow2(16) == 0x1_0000 && Pow2(24) == 0x100_0000 by { Pow2Facts(); }
    LowBytesShape(x, 4);
  }

  // The tags of the 64-bit encoder: 11110xxx, 111110xx, 1111110x.
  lemma Tier4(x: nat)
    ensures TierBytes(4, x) == [0xF0 + (x / 0x1_0000_0000) % 8, LowByte(x / 0x100_0000),
      LowByte(x / 0x1_0000), LowByte(x / 0x100), LowByte(x)]
  {
    Pow2Facts();
    Tiers32(x);
  }

  lemma Tier5(x: nat)
    ensures TierBytes(5, x) == [0xF8 + (x / 0x100_0000_0000) % 4, LowByte(x / 0x1_0000_0000),
      LowByte(x / 0x100_0000), LowByte(x / 0x1_0000), LowByte(x / 0x100), LowByte(x)]
  {
    Pow2Facts();
    LowBytesShape(x, 5);
  }

  lemma Tier6(x: nat)
    ensures TierBytes(6, x) == [0xFC + (x / 0x1_0000_0000_0000) % 2, LowByte(x / 0x100_0000_0000),
      LowByte(x / 0x1_0000_0000), LowByte(x / 0x100_0000), LowByte(x / 0x1_0000), LowByte(x / 0x100), LowByte(x)]
  {
    Pow2Facts();
    LowBytesShape(x, 6);
  }
}
