// What the SyncBinary reader makes of the bytes the writer produces: the
// unsigned round trip, the exact value a signed write reads back as, and the
// places where the two sides disagree.
module BinaryRoundTrip {
  import opened Wrappers
  import opened BinaryFormat

  // ---------------------------------------------------------------------------
  // Arithmetic.

  // x read as a two's-complement number of the width whose modulus is m.
  function Wrap(x: int, m: nat): int
    requires m >= 2
  {
    var u := x % m;
    if u >= m / 2 then u - m else u
  }

  lemma MulCompare(e: nat, h: nat, m: nat, low: nat)
    requires low < m
    ensures e * m + low >= h * m <==> e >= h
  {
    if e >= h { MulLe(h, e, m); }
    else { MulLe(e + 1, h, m); assert (e + 1) * m == e * m + m; }
  }

  lemma SplitValue(num: nat, m: nat, b: nat, h: nat)
    requires m >= 1 && h >= 1 && b == 2 * h
    ensures ((num / m) % b) * m + num % m == num % (m * b)
    ensures (num / m) % b >= h <==> num % (m * b) >= (m * b) / 2
  {
    ModSplit(num, m, b);
    MulCompare((num / m) % b, h, m, num % m);
    assert m * b == 2 * (h * m);
  }

  // ---------------------------------------------------------------------------
  // The small format, generically in the number k of bytes after the tag.

  // The bytes of LowBytes(x, k) read back as x modulo 2^(8k).
  lemma {:induction false} BigEndianLowBytes(x: nat, k: nat)
    ensures BigEndian(LowBytes(x, k)) == x % Pow2(8 * k)
  {
    if k > 0 {
      var init := LowBytes(x / 256, k - 1);
      assert LowBytes(x, k)[..k - 1] == init;
      BigEndianLowBytes(x / 256, k - 1);
      assert Pow2(8) == 256 by { Pow2Facts(); }
      Pow2Add(8, 8 * (k - 1));
      assert 8 + 8 * (k - 1) == 8 * k;
      ModSplit(x, 256, Pow2(8 * (k - 1)));
    }
  }

  // The tag TierBytes puts first announces k further bytes and keeps its
  // payload bits intact.
  lemma TierTag(k: nat, r: nat)
    requires 1 <= k <= 6 && r < Pow2(7 - k)
    ensures TagLength(TierHead(k) + r) == k
    ensures (TierHead(k) + r) % Pow2(7 - k) == r
  {
    Pow2Facts();
    if k == 1 {
      assert TierHead(k) == 0x80;
    } else if k == 2 {
      assert TierHead(k) == 0xC0;
    } else if k == 3 {
      assert TierHead(k) == 0xE0;
    } else if k == 4 {
      assert TierHead(k) == 0xF0;
    } else if k == 5 {
      assert TierHead(k) == 0xF8;
    } else {
      assert TierHead(k) == 0xFC;
    }
  }

  // The value a tag and its k bytes stand for, when the tag carries the
  // number's bits above the low 8k and the bytes carry the low 8k bits: the
  // number's low 7k + 7 bits, read as two's complement for signed targets.
  lemma TierValue(signed: bool, tag: Byte, k: nat, num: nat, body: seq<Byte>)
    requires 1 <= k <= 6
    requires tag % Pow2(7 - k) == (num / Pow2(8 * k)) % Pow2(7 - k)
    requires BigEndian(body) == num % Pow2(8 * k)
    ensures HighBits(signed, tag, k) + BigEndian(body)
         == if signed then Wrap(num, Pow2(7 * k + 7)) else num % Pow2(7 * k + 7)
  {
    var m, b, h := Pow2(8 * k), Pow2(7 - k), Pow2(6 - k);
    TierPowers(k);
    SplitValue(num, m, b, h);
    var extra := tag % b;
    assert HighBits(signed, tag, k) == (if signed && extra >= h then extra - b else extra) * m;
    WrapSplit(signed, extra, num % m, m, b, h, num);
  }

  lemma TierPowers(k: nat)
    requires 1 <= k <= 6
    ensures Pow2(7 - k) == 2 * Pow2(6 - k) && Pow2(6 - k) >= 1 && Pow2(8 * k) >= 1
    ensures Pow2(7 * k + 7) == Pow2(8 * k) * Pow2(7 - k)
  {
    Pow2Add(8 * k, 7 - k);
    assert 8 * k + (7 - k) == 7 * k + 7;
  }

  // The tag's extra bits e above the low bits, read as two's complement
  // when signed, give the wrapped value of x modulo m * b = e * m + low.
  lemma WrapSplit(signed: bool, e: int, low: int, m: nat, b: nat, h: nat, x: int)
    requires h >= 1 && b == 2 * h && m >= 1
    requires e * m + low == x % (m * b)
    requires e >= h <==> x % (m * b) >= (m * b) / 2
    ensures (if signed && e >= h then e - b else e) * m + low
         == if signed then Wrap(x, m * b) else x % (m * b)
  {
    assert m * b >= 2;
    if signed && e >= h {
      SubMul(e, b, m);
    }
  }

  // The number TierBytes(k, x) stands for, before the cast to the target.
  function TierNumber(signed: bool, k: nat, x: nat): int
  {
    if signed then Wrap(x, Pow2(7 * k + 7)) else x % Pow2(7 * k + 7)
  }

  lemma DecodeIsMultiByte(t: IntType, opt: ReadOptions, s: seq<Byte>)
    requires IsNormal(t) && |s| >= 1 && 0x80 <= s[0] < 0xFE
    ensures DecodeIntOrNull(t, opt, s) == DecodeMultiByte(t, opt, s)
  {
  }

  // Decoding any small-format number: the target receives TierNumber, unless
  // it is a 32-bit target that cannot hold it and truncation is off.
  lemma TierRoundTrip(t: IntType, opt: ReadOptions, k: nat, x: nat, rest: seq<Byte>)
    requires IsNormal(t) && k <= 6
    requires opt.silentlyTruncateLargeNumbers || !(t.Int32? || t.UInt32?)
          || InRange(t, TierNumber(IsSigned(t), k, x))
    ensures DecodeIntOrNull(t, opt, TierBytes(k, x) + rest)
         == Ok(Decoded(Some(Cast(t, TierNumber(IsSigned(t), k, x))), k + 1))
  {
    if k == 0 {
      OneByteTier(t, opt, x, rest);
    } else {
      MultiByteTier(t, opt, k, x, rest);
    }
  }

  lemma OneByteTier(t: IntType, opt: ReadOptions, x: nat, rest: seq<Byte>)
    requires IsNormal(t)
    ensures DecodeIntOrNull(t, opt, TierBytes(0, x) + rest)
         == Ok(Decoded(Some(Cast(t, TierNumber(IsSigned(t), 0, x))), 1))
  {
    assert Pow2(7) == 0x80 && Pow2(0) == 1 && Pow2(8) == 0x100 by { Pow2Facts(); }
    var s := TierBytes(0, x) + rest;
    assert s[0] == x % 0x80;
    assert TierNumber(IsSigned(t), 0, x) == SmallValue(t, s[0]);
    assert InRange(t, SmallValue(t, s[0]));
  }

  lemma MultiByteTier(t: IntType, opt: ReadOptions, k: nat, x: nat, rest: seq<Byte>)
    requires IsNormal(t) && 1 <= k <= 6
    requires opt.silentlyTruncateLargeNumbers || !(t.Int32? || t.UInt32?)
          || InRange(t, TierNumber(IsSigned(t), k, x))
    ensures DecodeIntOrNull(t, opt, TierBytes(k, x) + rest)
         == Ok(Decoded(Some(Cast(t, TierNumber(IsSigned(t), k, x))), k + 1))
  {
    var s := TierBytes(k, x) + rest;
    var r := (x / Pow2(8 * k)) % Pow2(7 - k);
    var number := TierNumber(IsSigned(t), k, x);
    assert s[0] == TierHead(k) + r;
    assert 0x80 <= s[0] < 0xFE && TagLength(s[0]) == k && s[0] % Pow2(7 - k) == r by {
      TierTag(k, r);
    }
    assert HighBits(IsSigned(t), s[0], k) + BigEndian(s[1..1 + k]) == number by {
      var body := LowBytes(x, k);
      assert s[1..1 + k] == body;
      BigEndianLowBytes(x, k);
      TierValue(IsSigned(t), s[0], k, x, body);
    }
    MultiByteDecode(t, opt, s, k, number);
  }

  // A small-format number with k further bytes decodes to the number its tag
  // and bytes stand for.
  lemma MultiByteDecode(t: IntType, opt: ReadOptions, s: seq<Byte>, k: nat, number: int)
    requires IsNormal(t) && 1 <= k <= 6 && |s| >= 1 + k && 0x80 <= s[0] < 0xFE && TagLength(s[0]) == k
    requires HighBits(IsSigned(t), s[0], k) + BigEndian(s[1..1 + k]) == number
    requires opt.silentlyTruncateLargeNumbers || !(t.Int32? || t.UInt32?) || InRange(t, number)
    ensures DecodeIntOrNull(t, opt, s) == Ok(Decoded(Some(Cast(t, number)), k + 1))
  {
    DecodeIsMultiByte(t, opt, s);
  }

  // ---------------------------------------------------------------------------
  // Unsigned values.

  // k further bytes hold every unsigned number below 2^(7k+7).
  lemma UnsignedTier(t: IntType, opt: ReadOptions, k: nat, n: nat, rest: seq<Byte>)
    requires (t.UInt32? || t.UInt64?) && k <= 6
    requires n < Pow2(7 * k + 7) && InRange(t, n)
    ensures DecodeIntOrNull(t, opt, TierBytes(k, n) + rest) == Ok(Decoded(Some(n), k + 1))
  {
    DivMulAdd(0, Pow2(7 * k + 7), n);
    assert TierNumber(false, k, n) == n;
    TierRoundTrip(t, opt, k, n, rest);
  }

  // The 5-byte form of the 32-bit encoder is TierBytes(4, num) for an
  // unsigned num.
  lemma FiveByteUnsigned(n: nat)
    requires n < 0x1_0000_0000
    ensures [0xF0] + LowBytes(n, 4) == TierBytes(4, n)
  {
    Pow2Facts();
  }

  // Write(uint) and WriteSignedOrUnsigned(uint, uint): reading the bytes back
  // as uint or as ulong gives the value and consumes exactly the bytes
  // written, whatever follows them.
  lemma RoundTripUInt32(t: IntType, opt: ReadOptions, n: nat, rest: seq<Byte>)
    requires t.UInt32? || t.UInt64?
    requires n < 0x1_0000_0000
    ensures DecodeIntOrNull(t, opt, EncodeUInt32(n) + rest) == Ok(Decoded(Some(n), |EncodeUInt32(n)|))
  {
    if n < 128 {
      assert EncodeUInt32(n) + rest == [n] + rest;
    } else {
      var k := UInt32Tier(n);
      UnsignedTier(t, opt, k, n, rest);
    }
  }

  // Outside its fast path, Write(uint) is TierBytes(k, num) for the k whose
  // tier holds num.
  lemma UInt32Tier(n: nat) returns (k: nat)
    requires 128 <= n < 0x1_0000_0000
    ensures 1 <= k <= 4 && EncodeUInt32(n) == TierBytes(k, n) && n < Pow2(7 * k + 7)
  {
    var p := MsbPos(n);
    assert Pow2(7) == 0x80 && Pow2(14) == 0x4000 && Pow2(21) == 0x20_0000 && Pow2(28) == 0x1000_0000
      && Pow2(35) == 0x8_0000_0000 && Pow2(32) == 0x1_0000_0000 by { Pow2Facts(); }
    assert 7 <= p by { MsbPosBelow(n, 7); }
    assert EncodeUInt32(n) == EncodeSignedOrUnsigned32(n, n);
    if p >= 28 {
      k := 4;
      FiveByteUnsigned(n);
    } else if p >= 21 {
      k := 3;
      MsbPosBelow(n, 28);
    } else if p >= 14 {
      k := 2;
      MsbPosBelow(n, 21);
    } else {
      k := 1;
      MsbPosBelow(n, 14);
    }
  }

  // Write(ulong) for values below 2^49, the ones the 64-bit encoder does not
  // send to its large form, read back as ulong.
  lemma RoundTripUInt64(opt: ReadOptions, n: nat, rest: seq<Byte>)
    requires n < 0x2_0000_0000_0000
    ensures DecodeIntOrNull(UInt64, opt, EncodeUInt64(n) + rest) == Ok(Decoded(Some(n), |EncodeUInt64(n)|))
  {
    if n < 0x1_0000_0000 {
      SameAs32Bit(n);
      RoundTripUInt32(UInt64, opt, n, rest);
    } else {
      RoundTripUInt64Above32(opt, n, rest);
    }
  }

  lemma SameAs32Bit(n: nat)
    requires n < 0x1_0000_0000
    ensures EncodeUInt64(n) == EncodeUInt32(n)
  {
    if n >= 128 {
      assert n % 0x1_0000_0000 == n;
      assert EncodeSignedOrUnsigned64(n, n) == EncodeSignedOrUnsigned32(n, n);
    }
  }

  lemma RoundTripUInt64Above32(opt: ReadOptions, n: nat, rest: seq<Byte>)
    requires 0x1_0000_0000 <= n < 0x2_0000_0000_0000
    ensures DecodeIntOrNull(UInt64, opt, EncodeUInt64(n) + rest) == Ok(Decoded(Some(n), |EncodeUInt64(n)|))
  {
    var k := Encode64Shape(n);
    UnsignedTier(UInt64, opt, k, n, rest);
  }

  // Between 2^32 and 2^49 the 64-bit encoder uses k = 4, 5 or 6 further bytes.
  lemma Encode64Shape(n: nat) returns (k: nat)
    requires 0x1_0000_0000 <= n < 0x2_0000_0000_0000
    ensures 4 <= k <= 6 && n < Pow2(7 * k + 7)
    ensures EncodeUInt64(n) == TierBytes(k, n)
  {
    assert Pow2(35) == 0x8_0000_0000 && Pow2(42) == 0x400_0000_0000 && Pow2(49) == 0x2_0000_0000_0000 by {
      Pow2Facts();
    }
    if n >= 0x400_0000_0000 {
      k := 6;
      Encode64Tier(n, 6, 42, 48);
    } else if n >= 0x8_0000_0000 {
      k := 5;
      Encode64Tier(n, 5, 35, 41);
    } else {
      k := 4;
      Encode64Tier(n, 4, 32, 34);
    }
  }

  lemma Encode64Tier(n: nat, k: nat, lo: nat, hi: nat)
    requires 0x1_0000_0000 <= n < 0x1_0000_0000_0000_0000
    requires 4 <= k <= 6 && lo <= hi
    requires lo == (if k == 4 then 32 else 7 * k) && hi == 7 * k + 6
    requires Pow2(lo) <= n < Pow2(hi + 1)
    ensures EncodeUInt64(n) == TierBytes(k, n)
  {
    MsbPosRange(n, lo, hi);
    assert EncodeUInt64(n) == EncodeSignedOrUnsigned64(n, n);
  }

  // x lies in [2^lo, 2^(hi+1)) exactly when its highest one-bit is between lo and hi.
  lemma MsbPosRange(x: nat, lo: nat, hi: nat)
    requires lo <= hi && Pow2(lo) <= x < Pow2(hi + 1)
    ensures lo <= MsbPos(x) <= hi
  {
    var p := MsbPos(x);
    if p < lo { Pow2Monotone(p + 1, lo); }
    if p > hi { Pow2Monotone(hi + 1, p); }
  }

  // The large form of Write(ulong) leaves at most the 0xFE tag behind: values
  // of 2^49 and above are not written.
  lemma LargeUInt64NotWritten(n: nat)
    requires 0x2_0000_0000_0000 <= n < 0x1_0000_0000_0000_0000
    ensures EncodeUInt64(n) == if n >= 0x100_0000_0000_0000 then [0xFE] else []
  {
    Pow2Facts();
    MsbPosBelow(n, 49);
    MsbPosBelow(n, 56);
  }

  // ---------------------------------------------------------------------------
  // Signed values.

  // Write(int) read back as int or long. Below 2^28 (for num or ~num) the
  // reader gets back the low 7 * |bytes| bits of the value as a
  // two's-complement number, which is the value itself except at the top
  // position of each tier. A non-negative value of the 5-byte form reads
  // back exactly; a negative one was written with the null tag.
  lemma WriteInt32ReadBack(t: IntType, opt: ReadOptions, v: int, rest: seq<Byte>)
    requires t.Int32? || t.Int64?
    requires InRange(Int32, v)
    ensures var nonNegative := if v >= 0 then v else -v - 1;
      var e := EncodeInt32(v);
      var d := DecodeIntOrNull(t, opt, e + rest);
      (nonNegative < 0x1000_0000 ==> 1 <= |e| <= 4 && d == Ok(Decoded(Some(Wrap(v, Pow2(7 * |e|))), |e|)))
      && (nonNegative >= 0x1000_0000 && v >= 0 ==> d == Ok(Decoded(Some(v), 5)))
      && (nonNegative >= 0x1000_0000 && v < 0 ==> d == Ok(Decoded(None, 0)))
  {
    var nonNegative := if v >= 0 then v else -v - 1;
    if nonNegative < 0x1000_0000 {
      ShortInt32ReadBack(t, opt, v, rest);
    } else {
      FiveByteInt32(t, opt, v, rest);
    }
  }

  // The one- to four-byte forms of Write(int).
  lemma ShortInt32ReadBack(t: IntType, opt: ReadOptions, v: int, rest: seq<Byte>)
    requires t.Int32? || t.Int64?
    requires InRange(Int32, v) && (if v >= 0 then v else -v - 1) < 0x1000_0000
    ensures 1 <= |EncodeInt32(v)| <= 4
    ensures DecodeIntOrNull(t, opt, EncodeInt32(v) + rest)
         == Ok(Decoded(Some(Wrap(v, Pow2(7 * |EncodeInt32(v)|))), |EncodeInt32(v)|))
  {
    var k: nat;
    var x := Cast(UInt32, v);
    if 0 <= v < 64 {
      FastInt32Tier(v);
      k := 0;
    } else {
      k := Int32Shape(v);
    }
    var e := EncodeInt32(v);
    assert e == TierBytes(k, x) && |e| == k + 1;
    SignedTier(t, opt, v, k, rest);
    assert e + rest == TierBytes(k, x) + rest;
    assert Pow2(7 * |e|) == Pow2(7 * k + 7);
  }

  // The fast path of Write(int) is the one-byte tier.
  lemma FastInt32Tier(v: int)
    requires 0 <= v < 64
    ensures EncodeInt32(v) == TierBytes(0, Cast(UInt32, v))
  {
    var x := Cast(UInt32, v);
    assert x == v;
    TierZero(x);
    assert x % 0x80 == x;
  }

  // Outside the fast path, Write(int) below 2^28 is TierBytes of the value's
  // low 32 bits, with k chosen from ~num for negative values.
  lemma Int32Shape(v: int) returns (k: nat)
    requires InRange(Int32, v) && !(0 <= v < 64)
    requires (if v >= 0 then v else -v - 1) < 0x1000_0000
    ensures k <= 3 && EncodeInt32(v) == TierBytes(k, Cast(UInt32, v))
  {
    var nonNegative := if v >= 0 then v else -v - 1;
    var x := Cast(UInt32, v);
    assert EncodeInt32(v) == EncodeSignedOrUnsigned32(x, nonNegative) by {
      assert Cast(UInt32, nonNegative) == nonNegative;
    }
    var p := MsbPos(nonNegative);
    assert p < 28 by {
      assert Pow2(28) == 0x1000_0000 by { Pow2Facts(); }
      MsbPosBelow(nonNegative, 28);
    }
    if p >= 21 {
      k := 3;
    } else if p >= 14 {
      k := 2;
    } else if p >= 7 {
      k := 1;
    } else {
      k := 0;
    }
  }

  // A signed reader given TierBytes(k, v mod 2^32) gets v's low 7k + 7 bits
  // as a two's-complement number.
  lemma SignedTier(t: IntType, opt: ReadOptions, v: int, k: nat, rest: seq<Byte>)
    requires t.Int32? || t.Int64?
    requires InRange(Int32, v) && k <= 3
    ensures DecodeIntOrNull(t, opt, TierBytes(k, Cast(UInt32, v)) + rest) == Ok(Decoded(Some(Wrap(v, Pow2(7 * k + 7))), k + 1))
  {
    var num := Cast(UInt32, v);
    var w := Pow2(7 * k + 7);
    var c := Pow2(25 - 7 * k);
    assert w * c == 0x1_0000_0000 by {
      Pow2Add(7 * k + 7, 25 - 7 * k);
      assert Pow2(32) == 0x1_0000_0000 by { Pow2Facts(); }
    }
    assert num == v % (w * c);
    ModOfMod(v, w, c);
    assert Wrap(num, w) == Wrap(v, w);
    assert w <= 0x1000_0000 by {
      Pow2Monotone(7 * k + 7, 28);
      assert Pow2(28) == 0x1000_0000 by { Pow2Facts(); }
    }
    WrapBounds(v, w, Pow2(7 * k + 6));
    TierRoundTrip(t, opt, k, num, rest);
  }

  lemma WrapBounds(x: int, m: nat, h: nat)
    requires m >= 2 && m == 2 * h
    ensures -(h as int) <= Wrap(x, m) < h
  {
  }

  // The 5-byte form of Write(int): a non-negative value reads back exactly,
  // a negative one carries the null tag.
  lemma FiveByteInt32(t: IntType, opt: ReadOptions, v: int, rest: seq<Byte>)
    requires t.Int32? || t.Int64?
    requires InRange(Int32, v) && (if v >= 0 then v else -v - 1) >= 0x1000_0000
    ensures v >= 0 ==> DecodeIntOrNull(t, opt, EncodeInt32(v) + rest) == Ok(Decoded(Some(v), 5))
    ensures v < 0 ==> EncodeInt32(v) == [0xFF] + LowBytes(Cast(UInt32, v), 4)
    ensures v < 0 ==> DecodeIntOrNull(t, opt, EncodeInt32(v) + rest) == Ok(Decoded(None, 0))
  {
    FiveByteShape(v);
    if v >= 0 {
      FiveBytePositive(t, opt, v, rest);
    } else {
      assert EncodeInt32(v) + rest == [0xFF] + (LowBytes(Cast(UInt32, v), 4) + rest);
    }
  }

  lemma FiveByteShape(v: int)
    requires InRange(Int32, v) && (if v >= 0 then v else -v - 1) >= 0x1000_0000
    ensures EncodeInt32(v) == [if v >= 0 then 0xF0 else 0xFF] + LowBytes(Cast(UInt32, v), 4)
    ensures v >= 0 ==> Cast(UInt32, v) == v
  {
    var nonNegative := if v >= 0 then v else -v - 1;
    var num := Cast(UInt32, v);
    assert EncodeInt32(v) == EncodeSignedOrUnsigned32(num, nonNegative) by {
      assert Cast(UInt32, nonNegative) == nonNegative;
    }
    assert MsbPos(nonNegative) >= 28 by {
      assert Pow2(28) == 0x1000_0000 && Pow2(32) == 0x1_0000_0000 by { Pow2Facts(); }
      MsbPosRange(nonNegative, 28, 31);
    }
    EncodeFive32(num, nonNegative);
    CastUInt32Sign(v);
  }

  // The uint cast of an int equals its complement-if-negative exactly for
  // the non-negative values.
  lemma CastUInt32Sign(v: int)
    requires InRange(Int32, v)
    ensures (Cast(UInt32, v) == if v >= 0 then v else -v - 1) <==> v >= 0
    ensures v >= 0 ==> Cast(UInt32, v) == v
  {
    CastUInt32(v);
  }

  lemma FiveBytePositive(t: IntType, opt: ReadOptions, v: nat, rest: seq<Byte>)
    requires t.Int32? || t.Int64?
    requires v < 0x8000_0000
    ensures DecodeIntOrNull(t, opt, [0xF0] + LowBytes(v, 4) + rest) == Ok(Decoded(Some(v), 5))
  {
    FiveByteUnsigned(v);
    assert Pow2(35) == 0x8_0000_0000 by { Pow2Facts(); }
    DivMulAdd(0, Pow2(35), v);
    assert TierNumber(true, 4, v) == v;
    TierRoundTrip(t, opt, 4, v, rest);
  }

  // Write(int) of 64 to 127 emits the value as a single byte, which reads
  // back as a negative number: Write(int 64) reads back as -64.
  lemma WriteInt32TopOfOneByteTier(opt: ReadOptions, v: int, rest: seq<Byte>)
    requires 64 <= v < 128
    ensures EncodeInt32(v) == [v]
    ensures DecodeIntOrNull(Int32, opt, EncodeInt32(v) + rest) == Ok(Decoded(Some(v - 128), 1))
  {
    TopOfOneByteTierShape(v);
    OneByteRead(Int32, opt, v, rest);
  }

  lemma TopOfOneByteTierShape(v: int)
    requires 64 <= v < 128
    ensures EncodeInt32(v) == [v]
  {
    assert Cast(UInt32, v) == v;
    OneByte32(v);
  }

  // A byte below 0x80 is read on its own.
  lemma OneByteRead(t: IntType, opt: ReadOptions, b: Byte, rest: seq<Byte>)
    requires IsNormal(t) && b < 0x80
    ensures DecodeIntOrNull(t, opt, [b] + rest) == Ok(Decoded(Some(SmallValue(t, b)), 1))
  {
  }

  // Write(int) with a value of 29 or more significant bits below zero emits
  // the null tag followed by four bytes; the reader sees a null and does not
  // move past it.
  lemma LargeNegativeInt32ReadsNull(t: IntType, opt: ReadOptions, v: int, rest: seq<Byte>)
    requires t.Int32? || t.Int64?
    requires -0x8000_0000 <= v < -0x1000_0000
    ensures |EncodeInt32(v)| == 5 && EncodeInt32(v)[0] == 0xFF
    ensures DecodeIntOrNull(t, opt, EncodeInt32(v) + rest) == Ok(Decoded(None, 0))
  {
    assert -v - 1 >= 0x1000_0000;
    FiveByteInt32(t, opt, v, rest);
  }

  // ---------------------------------------------------------------------------
  // Write(long).

  // ~a modulo m, from a modulo m.
  lemma ModComplement(a: int, m: nat)
    requires m >= 1
    ensures (-a - 1) % m == m - 1 - a % m
  {
    var q, r := a / m, a % m;
    assert a == q * m + r;
    assert -a - 1 == (-q - 1) * m + (m - 1 - r);
    DivMulAddInt(-q - 1, m, m - 1 - r);
  }

  // Write(long) looks only at the low 32 bits of a value and at its sign:
  // two longs that agree on both are written alike.
  lemma WriteInt64Low32Bits(v: int, w: int)
    requires InRange(Int64, v) && InRange(Int64, w)
    requires v % 0x1_0000_0000 == w % 0x1_0000_0000 && (v >= 0 <==> w >= 0)
    ensures EncodeInt64(v) == EncodeInt64(w)
  {
    ModComplement(v, 0x1_0000_0000);
    ModComplement(w, 0x1_0000_0000);
    var nv, nw := if v >= 0 then v else -v - 1, if w >= 0 then w else -w - 1;
    assert nv % 0x1_0000_0000 == nw % 0x1_0000_0000;
    CastUInt32(v);
    CastUInt32(w);
    CastUInt32(nv);
    CastUInt32(nw);
    assert LowByte(v) == LowByte(w) by {
      ModOfMod(v, 256, 0x100_0000);
      ModOfMod(w, 256, 0x100_0000);
    }
  }

  lemma CastUInt32(x: int)
    ensures Cast(UInt32, x) == x % 0x1_0000_0000
  {
  }

  // On the int range, Write(long) writes what Write(int) writes.
  lemma WriteInt64AsInt32(v: int)
    requires InRange(Int32, v)
    ensures EncodeInt64(v) == EncodeInt32(v)
  {
    Int32FastPath(v);
  }

  // A positive long whose low 32 bits are zero is written as the single
  // byte 0 and reads back as 0.
  lemma WriteInt64DropsHighBits(opt: ReadOptions, v: int, rest: seq<Byte>)
    requires InRange(Int64, v) && v > 0 && v % 0x1_0000_0000 == 0
    ensures EncodeInt64(v) == [0]
    ensures DecodeIntOrNull(Int64, opt, EncodeInt64(v) + rest) == Ok(Decoded(Some(0), 1))
  {
    WriteInt64Low32Bits(v, 0);
    assert EncodeInt64(0) == [0];
  }
  // ---------------------------------------------------------------------------
  // The reader as written.

  // A null is returned without moving past its 0xFF byte, so a reader that
  // asks again sees the same null.
  lemma NullIsNotConsumed(t: IntType, opt: ReadOptions, rest: seq<Byte>, peek8: bool)
    requires IsNormal(t)
    ensures DecodeIntOrNullWith(t, opt, [0xFF] + rest, peek8) == Ok(Decoded(None, 0))
  {
  }

  // Cast to long and back to ulong restores a ulong value.
  lemma CastInt64Back(x: int)
    requires InRange(UInt64, x)
    ensures Cast(UInt64, Cast(Int64, x)) == x
  {
    var m := 0x1_0000_0000_0000_0000;
    assert x % m == x;
    if x >= m / 2 {
      assert Cast(Int64, x) == x - m;
      assert (x - m) % m == x;
    }
  }

  // The large format advances the cursor past the number's bytes twice: the
  // 3 bytes FE 01 05 (length 1, value 5) are taken as 4.
  lemma LargeFormatAdvancesTwice(opt: ReadOptions, rest: seq<Byte>, peek8: bool)
    requires opt.maxNumberSize >= 1
    ensures DecodeIntOrNullWith(UInt64, opt, [0xFE, 1, 5] + rest, peek8) == Ok(Decoded(Some(5), 4))
  {
    var s := [0xFE, 1, 5] + rest;
    assert s[1..] == [1] + ([5] + rest);
    assert DecodeIntOrNullWith(UInt32, opt, s[1..], peek8) == Ok(Decoded(Some(1), 1));
    assert s[2..] == [5] + rest;
    assert (s[2..])[..1] == [5];
    assert BigEndian([5]) == 5 by {
      assert [5][..0] == [];
    }
    assert RemainingBigEndian(s[2..], 1, peek8) == 5;
    assert LargeBody(false, opt, s[2..], 1, peek8) == Ok((5, 2));
  }

  // A large-format number of length 0 reads as 0 when fewer than 8 bytes
  // are loaded, but otherwise as the next 8 bytes, which it does not
  // consume.
  lemma ZeroLengthReadsAhead(opt: ReadOptions, rest: seq<Byte>)
    requires opt.maxNumberSize >= 0 && |rest| >= 8
    ensures DecodeIntOrNullWith(UInt64, opt, [0xFE, 0] + rest, true) == Ok(Decoded(Some(BigEndian(rest[..8])), 2))
  {
    var s := [0xFE, 0] + rest;
    assert s[1..] == [0] + rest;
    assert DecodeIntOrNullWith(UInt32, opt, s[1..], true) == Ok(Decoded(Some(0), 1));
    assert s[2..] == rest;
    var raw := BigEndian(rest[..8]);
    assert InRange(UInt64, raw) by {
      BigEndianBound(rest[..8]);
      Pow2Facts();
    }
    CastInt64Back(raw);
    assert LargeBody(false, opt, rest, 0, true) == Ok((Cast(Int64, raw), 0));
    assert LargeSized(false, opt, s, 2, 0, true) == Ok((Cast(Int64, raw), 2));
    assert BinaryFormat.DecodeLargeFormatInt64(false, opt, s, true) == Ok((Cast(Int64, raw), 2));
  }

  lemma ZeroLengthWithoutLookahead(opt: ReadOptions, rest: seq<Byte>)
    requires opt.maxNumberSize >= 0 && |rest| >= 1
    ensures DecodeIntOrNullWith(UInt64, opt, [0xFE, 0] + rest, false) == Ok(Decoded(Some(0), 2))
  {
    var s := [0xFE, 0] + rest;
    assert s[1..] == [0] + rest;
    assert DecodeIntOrNullWith(UInt32, opt, s[1..], false) == Ok(Decoded(Some(0), 1));
    assert s[2..] == rest;
    assert rest[..0] == [];
    assert LargeBody(false, opt, rest, 0, false) == Ok((0, 0));
    assert LargeSized(false, opt, s, 2, 0, false) == Ok((0, 2));
    assert BinaryFormat.DecodeLargeFormatInt64(false, opt, s, false) == Ok((0, 2));
  }
}
