// The SyncBinary wire format for integers, as pure functions on byte sequences:
// the byte layouts the writer produces, the decoding the reader performs, and
// the C# integer casts both of them rely on.
//
// Layout of one integer (the first byte is the tag):
//   0xxxxxxx                       one byte, the value itself
//   1..10xxx + k more bytes        k leading one-bits (1 <= k <= 6): the tag's low
//                                  7-k bits are the top bits, the k bytes follow
//                                  big-endian
//   0xFE, length, length bytes     the "large" format
//   0xFF                           null
module BinaryFormat {
  import opened Wrappers

  type Byte = b: int | 0 <= b < 256

  function Pow2(n: nat): (r: nat)
    ensures r >= 1
  {
    if n == 0 then 1 else 2 * Pow2(n - 1)
  }

  lemma {:induction false} Pow2Monotone(a: nat, b: nat)
    requires a <= b
    ensures Pow2(a) <= Pow2(b)
  {
    if a < b { Pow2Monotone(a, b - 1); }
  }

  lemma {:induction false} Pow2Add(a: nat, b: nat)
    ensures Pow2(a + b) == Pow2(a) * Pow2(b)
  {
    if b > 0 { Pow2Add(a, b - 1); }
  }

  // The powers of two the byte layouts use.
  lemma Pow2Facts()
    ensures Pow2(1) == 2 && Pow2(2) == 4 && Pow2(3) == 8 && Pow2(4) == 0x10 && Pow2(5) == 0x20
    ensures Pow2(6) == 0x40 && Pow2(7) == 0x80 && Pow2(8) == 0x100
    ensures Pow2(13) == 0x2000 && Pow2(14) == 0x4000 && Pow2(16) == 0x1_0000
    ensures Pow2(20) == 0x10_0000 && Pow2(21) == 0x20_0000 && Pow2(24) == 0x100_0000
    ensures Pow2(23) == 0x80_0000 && Pow2(25) == 0x200_0000 && Pow2(26) == 0x400_0000
    ensures Pow2(27) == 0x800_0000 && Pow2(28) == 0x1000_0000 && Pow2(29) == 0x2000_0000
    ensures Pow2(30) == 0x4000_0000 && Pow2(31) == 0x8000_0000 && Pow2(32) == 0x1_0000_0000
    ensures Pow2(34) == 0x4_0000_0000 && Pow2(35) == 0x8_0000_0000 && Pow2(40) == 0x100_0000_0000
    ensures Pow2(41) == 0x200_0000_0000 && Pow2(42) == 0x400_0000_0000 && Pow2(48) == 0x1_0000_0000_0000
    ensures Pow2(49) == 0x2_0000_0000_0000 && Pow2(56) == 0x100_0000_0000_0000
    ensures Pow2(64) == 0x1_0000_0000_0000_0000
  {
    assert Pow2(1) == 0x2;
    assert Pow2(2) == 0x4;
    assert Pow2(3) == 0x8;
    assert Pow2(4) == 0x10;
    assert Pow2(5) == 0x20;
    assert Pow2(6) == 0x40;
    assert Pow2(7) == 0x80;
    assert Pow2(8) == 0x100;
    assert Pow2(9) == 0x200;
    assert Pow2(10) == 0x400;
    assert Pow2(11) == 0x800;
    assert Pow2(12) == 0x1000;
    assert Pow2(13) == 0x2000;
    assert Pow2(14) == 0x4000;
    assert Pow2(15) == 0x8000;
    assert Pow2(16) == 0x10000;
    assert Pow2(17) == 0x20000;
    assert Pow2(18) == 0x40000;
    assert Pow2(19) == 0x80000;
    assert Pow2(20) == 0x100000;
    assert Pow2(21) == 0x200000;
    assert Pow2(22) == 0x400000;
    assert Pow2(23) == 0x800000;
    assert Pow2(24) == 0x1000000;
    assert Pow2(25) == 0x2000000;
    assert Pow2(26) == 0x4000000;
    assert Pow2(27) == 0x8000000;
    assert Pow2(28) == 0x10000000;
    assert Pow2(29) == 0x20000000;
    assert Pow2(30) == 0x40000000;
    assert Pow2(31) == 0x80000000;
    assert Pow2(32) == 0x100000000;
    assert Pow2(33) == 0x200000000;
    assert Pow2(34) == 0x400000000;
    assert Pow2(35) == 0x800000000;
    assert Pow2(36) == 0x1000000000;
    assert Pow2(37) == 0x2000000000;
    assert Pow2(38) == 0x4000000000;
    assert Pow2(39) == 0x8000000000;
    assert Pow2(40) == 0x10000000000;
    assert Pow2(41) == 0x20000000000;
    assert Pow2(42) == 0x40000000000;
    assert Pow2(43) == 0x80000000000;
    assert Pow2(44) == 0x100000000000;
    assert Pow2(45) == 0x200000000000;
    assert Pow2(46) == 0x400000000000;
    assert Pow2(47) == 0x800000000000;
    assert Pow2(48) == 0x1000000000000;
    assert Pow2(49) == 0x2000000000000;
    assert Pow2(50) == 0x4000000000000;
    assert Pow2(51) == 0x8000000000000;
    assert Pow2(52) == 0x10000000000000;
    assert Pow2(53) == 0x20000000000000;
    assert Pow2(54) == 0x40000000000000;
    assert Pow2(55) == 0x80000000000000;
    assert Pow2(56) == 0x100000000000000;
    assert Pow2(57) == 0x200000000000000;
    assert Pow2(58) == 0x400000000000000;
    assert Pow2(59) == 0x800000000000000;
    assert Pow2(60) == 0x1000000000000000;
    assert Pow2(61) == 0x2000000000000000;
    assert Pow2(62) == 0x4000000000000000;
    assert Pow2(63) == 0x8000000000000000;
    assert Pow2(64) == 0x10000000000000000;
  }

  // ---------------------------------------------------------------------------
  // C# unchecked casts between integer types.

  datatype IntType = SByte | Byte8 | Int16 | UInt16 | Int32 | UInt32 | Int64 | UInt64

  // 2 to the power of the type's width in bits.
  function Modulus(t: IntType): nat
  {
    match t
    case SByte | Byte8 => 0x100
    case Int16 | UInt16 => 0x1_0000
    case Int32 | UInt32 => 0x1_0000_0000
    case Int64 | UInt64 => 0x1_0000_0000_0000_0000
  }

  predicate IsSigned(t: IntType)
  {
    t.SByte? || t.Int16? || t.Int32? || t.Int64?
  }

  // The integer types DecodeIntOrNull may be instantiated with.
  predicate IsNormal(t: IntType)
  {
    t.Int32? || t.UInt32? || t.Int64? || t.UInt64?
  }

  predicate InRange(t: IntType, x: int)
  {
    if IsSigned(t) then -(Modulus(t) / 2) <= x < Modulus(t) / 2
    else 0 <= x < Modulus(t)
  }

  // `(T)x` in an unchecked context: keep the low Width(t) bits of x and read
  // them as a value of type t.
  function Cast(t: IntType, x: int): (r: int)
    ensures InRange(t, r)
    ensures (r - x) % Modulus(t) == 0
    ensures InRange(t, x) ==> r == x
  {
    var m := Modulus(t);
    var u := x % m;
    if IsSigned(t) && u >= m / 2 then u - m else u
  }

  // `x >> n` on an unsigned value.
  function ShiftRight(x: nat, n: nat): nat
  {
    DivNonNegative(x, Pow2(n));
    x / Pow2(n)
  }

  lemma DivNonNegative(x: nat, d: nat)
    requires d >= 1
    ensures x / d >= 0
  {
    var q := x / d;
    assert x == q * d + x % d;
    if q < 0 {
      MulAtLeast(-q, d);
    }
  }

  // The byte `(byte)x` stores.
  function LowByte(x: int): Byte
  {
    x % 256
  }

  // Bitwise OR of two bytes.
  function OrByte(a: Byte, b: Byte): Byte
  {
    ((a as bv8) | (b as bv8)) as int
  }

  // ---------------------------------------------------------------------------
  // G.PositionOfMostSignificantOne and BitOperations.LeadingZeroCount, which
  // are library code; both are given here by their meaning.

  // The index of the highest one-bit of x, or -1 when x is 0.
  function MsbPos(x: nat): (p: int)
    ensures x == 0 <==> p == -1
    ensures x > 0 ==> p >= 0 && Pow2(p) <= x < Pow2(p + 1)
  {
    if x <= 1 then x - 1 else 1 + MsbPos(x / 2)
  }

  lemma MsbPosIs(x: nat, p: nat)
    requires Pow2(p) <= x < Pow2(p + 1)
    ensures MsbPos(x) == p
  {
    var q := MsbPos(x);
    if q < p {
      Pow2Monotone(q + 1, p);
    } else if q > p {
      Pow2Monotone(p + 1, q);
    }
  }

  // The highest one-bit of x is below e exactly when x is below 2^e.
  lemma MsbPosBelow(x: nat, e: nat)
    ensures MsbPos(x) < e <==> x < Pow2(e)
  {
    var p := MsbPos(x);
    if x > 0 {
      if p < e { Pow2Monotone(p + 1, e); }
      else { Pow2Monotone(e, p); }
    }
  }

  // BitOperations.LeadingZeroCount on a 32-bit value.
  function LeadingZeroCount32(x: nat): (r: int)
    requires x < 0x1_0000_0000
    ensures 0 <= r <= 32
  {
    assert x > 0 ==> MsbPos(x) < 32 by {
      Pow2Facts();
      if x > 0 && MsbPos(x) >= 32 { Pow2Monotone(32, MsbPos(x)); }
    }
    31 - MsbPos(x)
  }

  // ReaderState.LeadingOneCount (the BitOperations branch): the number of
  // leading one-bits of a byte, computed as the leading zeros of the 32-bit
  // complement of b << 24.
  function LeadingOneCount(b: Byte): (r: int)
  {
    LeadingZeroCount32(0xFFFF_FFFF - b * 0x100_0000)
  }

  // The leading-one count of b is k exactly when the top k bits of b are ones
  // and the bit after them is zero.
  lemma LeadingOneCountIs(b: Byte)
    ensures b < 0x80 ==> LeadingOneCount(b) == 0
    ensures 0x80 <= b < 0xC0 ==> LeadingOneCount(b) == 1
    ensures 0xC0 <= b < 0xE0 ==> LeadingOneCount(b) == 2
    ensures 0xE0 <= b < 0xF0 ==> LeadingOneCount(b) == 3
    ensures 0xF0 <= b < 0xF8 ==> LeadingOneCount(b) == 4
    ensures 0xF8 <= b < 0xFC ==> LeadingOneCount(b) == 5
    ensures 0xFC <= b < 0xFE ==> LeadingOneCount(b) == 6
    ensures b == 0xFE ==> LeadingOneCount(b) == 7
    ensures b == 0xFF ==> LeadingOneCount(b) == 8
  {
    Pow2Facts();
    if b < 0x80 { LeadingOneCountFrom(b, 31, 0x8000_0000, 0x1_0000_0000); }
    else if b < 0xC0 { LeadingOneCountFrom(b, 30, 0x4000_0000, 0x8000_0000); }
    else if b < 0xE0 { LeadingOneCountFrom(b, 29, 0x2000_0000, 0x4000_0000); }
    else if b < 0xF0 { LeadingOneCountFrom(b, 28, 0x1000_0000, 0x2000_0000); }
    else if b < 0xF8 { LeadingOneCountFrom(b, 27, 0x800_0000, 0x1000_0000); }
    else if b < 0xFC { LeadingOneCountFrom(b, 26, 0x400_0000, 0x800_0000); }
    else if b < 0xFE { LeadingOneCountFrom(b, 25, 0x200_0000, 0x400_0000); }
    else if b == 0xFE { LeadingOneCountFrom(b, 24, 0x100_0000, 0x200_0000); }
    else { LeadingOneCountFrom(b, 23, 0x80_0000, 0x100_0000); }
  }

  lemma LeadingOneCountFrom(b: Byte, p: nat, lo: nat, hi: nat)
    requires 23 <= p <= 31 && lo == Pow2(p) && hi == Pow2(p + 1)
    requires lo <= 0xFFFF_FFFF - b * 0x100_0000 < hi
    ensures LeadingOneCount(b) == 31 - p
  {
    MsbPosIs(0xFFFF_FFFF - b * 0x100_0000, p);
  }

  // ---------------------------------------------------------------------------
  // Big-endian byte strings.

  function BigEndian(s: seq<Byte>): (r: nat)
  {
    if s == [] then 0 else BigEndian(s[..|s| - 1]) * 256 + s[|s| - 1]
  }

  lemma {:induction false} BigEndianBound(s: seq<Byte>)
    ensures BigEndian(s) < Pow2(8 * |s|)
  {
    if s != [] {
      BigEndianBound(s[..|s| - 1]);
      Pow2Add(8 * (|s| - 1), 8);
      assert Pow2(8) == 256;
    }
  }

  // Splitting a big-endian string: the prefix supplies the high digits.
  lemma {:induction false} BigEndianAppend(a: seq<Byte>, b: seq<Byte>)
    ensures BigEndian(a + b) == BigEndian(a) * Pow2(8 * |b|) + BigEndian(b)
  {
    if b == [] {
      assert a + b == a;
    } else {
      var b' := b[..|b| - 1];
      var last := b[|b| - 1];
      assert (a + b)[..|a + b| - 1] == a + b';
      assert BigEndian(a + b) == BigEndian(a + b') * 256 + last;
      assert BigEndian(b) == BigEndian(b') * 256 + last;
      BigEndianAppend(a, b');
      assert Pow2(8 * |b|) == Pow2(8 * |b'|) * 256 by {
        Pow2Add(8 * |b'|, 8);
        assert Pow2(8) == 256;
      }
      ShiftDigit(BigEndian(a), Pow2(8 * |b'|), BigEndian(b'), last);
    }
  }

  // One more base-256 digit below a two-part number.
  lemma ShiftDigit(hi: int, p: int, lo: int, d: int)
    ensures (hi * p + lo) * 256 + d == hi * (p * 256) + (lo * 256 + d)
  {
  }

  // Reading the first 8 bytes and discarding the low 8 - k of them leaves the
  // big-endian value of the first k bytes.
  lemma BigEndianPrefix(s: seq<Byte>, k: nat)
    requires k <= |s|
    ensures BigEndian(s) / Pow2(8 * (|s| - k)) == BigEndian(s[..k])
  {
    assert s == s[..k] + s[k..];
    BigEndianAppend(s[..k], s[k..]);
    BigEndianBound(s[k..]);
    DivMulAdd(BigEndian(s[..k]), Pow2(8 * (|s| - k)), BigEndian(s[k..]));
  }

  lemma DivMulAdd(a: nat, m: nat, b: nat)
    requires b < m
    ensures (a * m + b) / m == a && (a * m + b) % m == b
  {
    var x := a * m + b;
    var q, r := x / m, x % m;
    assert x == q * m + r;
    if q > a {
      MulAtLeast(q - a, m);
    } else if q < a {
      MulAtLeast(a - q, m);
    }
  }

  lemma {:induction false} MulAtLeast(x: int, m: nat)
    requires x >= 1
    ensures x * m >= m
  {
    if x > 1 {
      MulAtLeast(x - 1, m);
      assert x * m == (x - 1) * m + m;
    }
  }

  lemma DivMulAddInt(a: int, m: nat, b: nat)
    requires b < m
    ensures (a * m + b) % m == b
  {
    var x := a * m + b;
    var q, r := x / m, x % m;
    assert x == q * m + r;
    if q > a {
      MulAtLeast(q - a, m);
    } else if q < a {
      MulAtLeast(a - q, m);
    }
  }

  lemma MulLe(x: nat, y: nat, m: nat)
    requires x <= y
    ensures x * m <= y * m
  {
    if x < y { MulAtLeast(y - x, m); SubMul(y, x, m); }
  }

  lemma SubMul(x: int, y: int, m: int)
    ensures (x - y) * m == x * m - y * m
  {
  }

  // Taking digits in base a, then the next digit in base b, gives the
  // remainder modulo a * b.
  lemma ModSplit(x: nat, a: nat, b: nat)
    requires a >= 1 && b >= 1
    ensures ((x / a) % b) * a + x % a == x % (a * b)
  {
    SplitCore(x, a, b, x / a, x % a, (x / a) / b, (x / a) % b);
  }

  // x written in the mixed radix (a, b): the quotient and remainder by a * b.
  lemma SplitCore(x: nat, a: nat, b: nat, q: nat, r: nat, q2: nat, r2: nat)
    requires x == q * a + r && r < a
    requires q == q2 * b + r2 && r2 < b
    ensures x / (a * b) == q2 && x % (a * b) == r2 * a + r
  {
    Regroup(a, b, q, q2, r2);
    LowDigits(a, b, r, r2);
    DivMulAdd(q2, a * b, r2 * a + r);
  }

  lemma Regroup(a: int, b: int, q: int, q2: int, r2: int)
    requires q == q2 * b + r2
    ensures q * a == q2 * (a * b) + r2 * a
  {
  }

  lemma LowDigits(a: nat, b: nat, r: nat, r2: nat)
    requires r < a && r2 < b
    ensures r2 * a + r < a * b
  {
    MulLe(r2, b - 1, a);
    SubMul(b, 1, a);
  }

  // Reducing modulo a multiple of w keeps the remainder modulo w.
  lemma ModOfMod(x: int, w: nat, c: nat)
    requires w >= 1 && c >= 1
    ensures (x % (w * c)) % w == x % w
  {
    var q, r := x / (w * c), x % (w * c);
    assert x == q * (w * c) + r;
    var q2, r2 := r / w, r % w;
    assert r == q2 * w + r2;
    assert x == (q * c + q2) * w + r2 by {
      assert q * (w * c) == (q * c) * w;
      assert (q * c + q2) * w == (q * c) * w + q2 * w;
    }
    DivMulAddInt(q * c + q2, w, r2);
  }

  // Dividing by a, then by b, is dividing by a * b.
  lemma DivDiv(x: nat, a: nat, b: nat)
    requires a >= 1 && b >= 1
    ensures (x / a) / b == x / (a * b)
  {
    SplitCore(x, a, b, x / a, x % a, (x / a) / b, (x / a) % b);
  }

  // ---------------------------------------------------------------------------
  // What WriterState.WriteSignedOrUnsigned appends.

  // The low k bytes of x, most significant first.
  function LowBytes(x: nat, k: nat): (r: seq<Byte>)
    ensures |r| == k
  {
    if k == 0 then [] else LowBytes(x / 256, k - 1) + [LowByte(x)]
  }

  // The tag of a small-format number of k further bytes before its payload
  // bits: k + 1 leading ones (0x80, 0xC0, ... 0xFC), or 0 when k is 0.
  function TierHead(k: nat): (r: nat)
    requires k <= 6
    ensures r + Pow2(7 - k) <= 0xFE
    ensures 1 <= k ==> 0x80 <= r
  {
    Pow2Monotone(7 - k, 7);
    assert Pow2(8 - k) == 2 * Pow2(7 - k);
    Pow2Monotone(1, 7 - k);
    assert Pow2(7) == 0x80;
    256 - Pow2(8 - k)
  }

  // The small format with k further bytes: the tag carries the bits of x
  // above its low 8k bits (as many as fit in its 7 - k free bits), and the
  // k bytes carry the low 8k bits.
  function TierBytes(k: nat, x: nat): (r: seq<Byte>)
    requires k <= 6
    ensures |r| == k + 1
  {
    [TierHead(k) + (x / Pow2(8 * k)) % Pow2(7 - k)] + LowBytes(x, k)
  }

  // Values below 0x80 are written as themselves, in one byte.
  lemma OneByte32(n: nat)
    requires n < 0x80
    ensures EncodeSignedOrUnsigned32(n, n) == [n]
  {
    MsbPosBelowTag(n);
    assert Tier32(MsbPos(n)) == 0;
    EncodeTier32(n, n, 0);
    TierZero(n);
    assert n % 0x80 == n;
  }

  lemma MsbPosBelowTag(n: nat)
    requires n < 0x80
    ensures MsbPos(n) < 7
  {
    assert Pow2(7) == 0x80 by { Pow2Facts(); }
    MsbPosBelow(n, 7);
  }

  // The one-byte tier is the low 7 bits of x.
  lemma TierZero(x: nat)
    ensures TierBytes(0, x) == [x % 0x80]
  {
    assert Pow2(0) == 1 && Pow2(7) == 128 && Pow2(8) == 256 by { Pow2Facts(); }
  }

  // The 32-bit encoder: the length is chosen from the highest one-bit of
  // nonNegative, which is num itself for unsigned values and ~num for
  // negative signed ones.
  function EncodeSignedOrUnsigned32(num: nat, nonNegative: nat): (r: seq<Byte>)
    requires num < 0x1_0000_0000 && nonNegative < 0x1_0000_0000
    ensures 1 <= |r| <= 5
  {
    var p := MsbPos(nonNegative);
    if 28 <= p then [if num == nonNegative then 0xF0 else 0xFF] + LowBytes(num, 4)
    else TierBytes(Tier32(p), num)
  }

  // The number of bytes after the tag for a highest one-bit p below 28:
  // 7 bits fit in the tag alone, each further byte adds 7 bits of room.
  function Tier32(p: int): (k: nat)
    requires p < 28
    ensures k <= 3 && (p >= 0 ==> 7 * k <= p) && p < 7 * k + 7
  {
    if 21 <= p then 3 else if 14 <= p then 2 else if 7 <= p then 1 else 0
  }

  // A highest one-bit at 28 or above selects the five-byte form.
  lemma EncodeFive32(num: nat, nonNegative: nat)
    requires num < 0x1_0000_0000 && nonNegative < 0x1_0000_0000
    requires MsbPos(nonNegative) >= 28
    ensures EncodeSignedOrUnsigned32(num, nonNegative)
         == [if num == nonNegative then 0xF0 else 0xFF] + LowBytes(num, 4)
  {
  }

  // Below the five-byte form, the 32-bit encoder emits one tier.
  lemma EncodeTier32(num: nat, nonNegative: nat, k: nat)
    requires num < 0x1_0000_0000 && nonNegative < 0x1_0000_0000
    requires MsbPos(nonNegative) < 28 && Tier32(MsbPos(nonNegative)) == k
    ensures EncodeSignedOrUnsigned32(num, nonNegative) == TierBytes(k, num)
  {
  }

  // The 64-bit encoder. Values that fit in 32 bits go to the 32-bit encoder.
  // The large form (any other highest one-bit, in practice 49 or above) fills
  // the output span but advances the output index only past its first byte,
  // and only when the highest one-bit is at 56 or above: that is all it
  // appends.
  function EncodeSignedOrUnsigned64(num: nat, nonNegative: nat): (r: seq<Byte>)
    requires num < 0x1_0000_0000_0000_0000 && nonNegative < 0x1_0000_0000_0000_0000
    ensures |r| <= 7
  {
    if num < 0x1_0000_0000 then
      EncodeSignedOrUnsigned32(num, nonNegative % 0x1_0000_0000)
    else
      var p := MsbPos(nonNegative);
      if 42 <= p <= 48 then TierBytes(6, num)
      else if 35 <= p <= 41 then TierBytes(5, num)
      else if 28 <= p <= 34 then TierBytes(4, num)
      else if p >= 56 then [0xFE]
      else []
  }

  // Write(int): 0 <= num < 64 is one byte; otherwise the 32-bit encoder with
  // nonNegative = num or ~num.
  function EncodeInt32(num: int): (r: seq<Byte>)
    requires InRange(Int32, num)
  {
    if 0 <= num < 64 then [num]
    else EncodeSignedOrUnsigned32(Cast(UInt32, num), Cast(UInt32, if num >= 0 then num else -num - 1))
  }

  // `(uint)num < 64` on an int is the test 0 <= num < 64, and `(byte)num`
  // is then num itself.
  lemma Int32FastPath(num: int)
    requires InRange(Int32, num)
    ensures Cast(UInt32, num) < 64 <==> 0 <= num < 64
    ensures 0 <= num < 64 ==> LowByte(num) == num
  {
    if num < 0 {
      assert Cast(UInt32, num) == num + 0x1_0000_0000;
    }
  }

  // Write(uint): num < 128 is one byte.
  function EncodeUInt32(num: int): (r: seq<Byte>)
    requires InRange(UInt32, num)
  {
    if num < 128 then [num] else EncodeSignedOrUnsigned32(num, num)
  }

  // Write(long): the same steps as Write(int), applied to the low 32 bits.
  function EncodeInt64(num: int): (r: seq<Byte>)
    requires InRange(Int64, num)
  {
    if Cast(UInt32, num) < 64 then [LowByte(num)]
    else EncodeSignedOrUnsigned32(Cast(UInt32, num), Cast(UInt32, if num >= 0 then num else -num - 1))
  }

  // Write(ulong): num < 128 is one byte.
  function EncodeUInt64(num: int): (r: seq<Byte>)
    requires InRange(UInt64, num)
  {
    if num < 128 then [num] else EncodeSignedOrUnsigned64(num, num)
  }

  // ---------------------------------------------------------------------------
  // What ReaderState decodes.

  datatype ReadOptions = ReadOptions(
    maxNumberSize: int,
    silentlyTruncateLargeNumbers: bool,
    readNullPrimitivesAsDefault: bool)

  datatype ReadError =
    | UnexpectedEof                     // "Data stream ended unexpectedly"
    | NumberTooLarge(expected: IntType) // "number is too large (expected T)"
    | NumberLengthIsNull                // large format whose length prefix is 0xFF
    | LengthPrefixIsLengthPrefixed      // large format whose length prefix is 0xFE
    | LengthPrefixTooLarge              // length prefix above MaxNumberSize
    | NegativeLengthPrefix              // length prefix of 2^31 or more (see README)
    | IntegerTooLarge                   // a non-zero excess byte of a long number
    | UnexpectedNull                    // null where a value is required

  // A decoded value (None for null) and the number of bytes the cursor moved.
  datatype Decoded = Decoded(value: Option<int>, size: nat)

  // The value of a one-byte number: the byte itself for unsigned targets, the
  // byte sign-extended from bit 6 for signed ones ((b << 25) >> 25).
  function SmallValue(t: IntType, b: Byte): int
    requires b < 0x80
  {
    if IsSigned(t) && b >= 0x40 then b - 0x80 else b
  }

  // The tag's contribution to a number of k further bytes: its low 7-k bits,
  // sign-extended for signed targets, placed above the k bytes.
  function HighBits(signed: bool, tag: Byte, k: nat): int
    requires k <= 6
  {
    var extra := tag % Pow2(7 - k);
    var v := if signed && extra >= Pow2(6 - k) then extra - Pow2(7 - k) else extra;
    v * Pow2(8 * k)
  }

  // `number << shiftAmount >> shiftAmount` with shiftAmount = 64 - 8 * size,
  // on a long: sign-extension from bit 8 * size - 1. C# masks a shift count to
  // 6 bits, so a size of 0 leaves the number as it is.
  function SignExtendBytes(number: int, size: nat): (r: int)
    requires size <= 8
    ensures InRange(Int64, number) ==> InRange(Int64, r)
  {
    assert size > 0 ==> Pow2(8 * size) <= Modulus(Int64) by {
      Pow2Facts();
      if size > 0 { Pow2Monotone(8 * size, 64); }
    }
    if size == 0 then number
    else
      var m := Pow2(8 * size);
      var u := number % m;
      if u >= m / 2 then u - m else u
  }

  predicate AllZero(s: seq<Byte>)
  {
    forall j :: 0 <= j < |s| ==> s[j] == 0
  }

  // The number of bytes after a small-format tag: the count of its leading
  // one-bits (LeadingOneCountIs shows the two agree).
  function TagLength(tag: Byte): (k: nat)
    requires 0x80 <= tag < 0xFE
    ensures 1 <= k <= 6
  {
    if tag < 0xC0 then 1
    else if tag < 0xE0 then 2
    else if tag < 0xF0 then 3
    else if tag < 0xF8 then 4
    else if tag < 0xFC then 5
    else 6
  }

  // TagLength is what ReaderState.LeadingOneCount computes for such tags.
  lemma TagLengthIsLeadingOneCount(tag: Byte)
    requires 0x80 <= tag < 0xFE
    ensures TagLength(tag) == LeadingOneCount(tag)
  {
    LeadingOneCountIs(tag);
  }

  // The small format with at least one byte after the tag.
  function DecodeMultiByte(t: IntType, opt: ReadOptions, s: seq<Byte>): Result<Decoded, ReadError>
    requires IsNormal(t) && |s| >= 1 && 0x80 <= s[0] < 0xFE
  {
    var k := TagLength(s[0]);
    if |s| < 1 + k then Err(UnexpectedEof)
    else MultiByteValue(t, opt, s[0], BigEndian(s[1..1 + k]))
  }

  // The small format's tag and the big-endian value `low` of its further
  // bytes: the number, with the overflow check for 32-bit targets.
  function MultiByteValue(t: IntType, opt: ReadOptions, tag: Byte, low: nat): Result<Decoded, ReadError>
    requires IsNormal(t) && 0x80 <= tag < 0xFE
  {
    var k := TagLength(tag);
    var number := HighBits(IsSigned(t), tag, k) + low;
    if !opt.silentlyTruncateLargeNumbers && (t.Int32? || t.UInt32?) && !InRange(t, number) then
      Err(NumberTooLarge(t))
    else
      Ok(Decoded(Some(Cast(t, number)), 1 + k))
  }

  // DecodeIntOrNull<T> on the bytes from the cursor onwards. A null is not
  // consumed: the cursor stays on the 0xFF byte. `peek8` tells whether at
  // least 8 bytes were loaded past the cursor when a zero-length large number
  // was read (see DecodeLargeFormatInt64); a reader that holds its whole input
  // passes true.
  function DecodeIntOrNullWith(t: IntType, opt: ReadOptions, s: seq<Byte>, peek8: bool): (r: Result<Decoded, ReadError>)
    requires IsNormal(t)
    ensures r.Ok? && |s| > 0 && s[0] < 0xFE ==> r.value.value.Some? && 1 <= r.value.size <= |s|
    decreases |s|, 1
  {
    if |s| == 0 then Err(UnexpectedEof)
    else if s[0] < 0x80 then Ok(Decoded(Some(SmallValue(t, s[0])), 1))
    else if s[0] < 0xFE then DecodeMultiByte(t, opt, s)
    else if s[0] == 0xFF then
      Ok(Decoded(None, 0))
    else
      match DecodeLargeFormatInt64(IsSigned(t), opt, s, peek8)
      case Err(e) => Err(e)
      case Ok(d) => Ok(Decoded(Some(Cast(t, d.0)), d.1))
  }

  // DecodeIntOrNullWith for a reader whose buffer holds the whole input.
  function DecodeIntOrNull(t: IntType, opt: ReadOptions, s: seq<Byte>): Result<Decoded, ReadError>
    requires IsNormal(t)
  {
    DecodeIntOrNullWith(t, opt, s, true)
  }

  // BigEndianBytesToUInt64(span) >> ((8 - size) << 3): C# masks a shift of a
  // ulong to 6 bits, so a size of 0 keeps all 8 bytes.
  function FastRemaining(s: seq<Byte>, size: nat): (r: nat)
    requires |s| >= 8 && size <= 8
    ensures size > 0 ==> r == BigEndian(s[..size])
    ensures size == 0 ==> r == BigEndian(s[..8])
  {
    var shift := (8 * (8 - size)) % 64;
    FastRemainingShift(s, size, shift);
    BigEndian(s[..8]) / Pow2(shift)
  }

  lemma FastRemainingShift(s: seq<Byte>, size: nat, shift: nat)
    requires |s| >= 8 && size <= 8 && shift == (8 * (8 - size)) % 64
    ensures size > 0 ==> BigEndian(s[..8]) / Pow2(shift) == BigEndian(s[..size])
    ensures size == 0 ==> BigEndian(s[..8]) / Pow2(shift) == BigEndian(s[..8])
  {
    if size == 0 {
      assert shift == 0;
    } else {
      assert shift == 8 * (8 - size);
      BigEndianPrefix(s[..8], size);
      assert s[..8][..size] == s[..size];
    }
  }

  // DecodeLargeFormatInt64 on bytes starting with the 0xFE tag: the number
  // (as a long) and the distance the cursor moved. The length prefix is a
  // uint in the small format; LargeBody reads what follows it.
  function DecodeLargeFormatInt64(signed: bool, opt: ReadOptions, s: seq<Byte>, peek8: bool): (r: Result<(int, nat), ReadError>)
    requires |s| >= 1 && s[0] == 0xFE
    decreases |s|, 0
  {
    if |s| < 3 then Err(UnexpectedEof)
    else if s[1] == 0xFF then Err(NumberLengthIsNull)
    else if s[1] == 0xFE then Err(LengthPrefixIsLengthPrefixed)
    else
      match DecodeIntOrNullWith(UInt32, opt, s[1..], peek8)
      case Err(e) => Err(e)
      case Ok(len) =>
        match len.value
        case None => Err(NumberLengthIsNull)
        case Some(l) => LargeSized(signed, opt, s, 1 + len.size, Cast(Int32, l), peek8)
  }

  // The checks on the size the length prefix gives (the prefix ends at
  // position p), then the number's bytes after it.
  function LargeSized(signed: bool, opt: ReadOptions, s: seq<Byte>, p: nat, integerSize: int, peek8: bool): (r: Result<(int, nat), ReadError>)
    requires p <= |s|
  {
    if integerSize > opt.maxNumberSize then Err(LengthPrefixTooLarge)
    else if integerSize < 0 then Err(NegativeLengthPrefix)
    else
      match LargeBody(signed, opt, s[p..], integerSize, peek8)
      case Err(e) => Err(e)
      case Ok(b) => Ok((b.0, p + b.1))
  }

  // The large format once its length prefix has decoded.
  lemma LargeFormatIs(signed: bool, opt: ReadOptions, s: seq<Byte>, peek8: bool, l: int, m: nat)
    requires |s| >= 3 && s[0] == 0xFE && s[1] < 0xFE
    requires DecodeIntOrNullWith(UInt32, opt, s[1..], peek8) == Ok(Decoded(Some(l), m))
    ensures 1 + m <= |s|
    ensures DecodeLargeFormatInt64(signed, opt, s, peek8) == LargeSized(signed, opt, s, 1 + m, Cast(Int32, l), peek8)
  {
  }

  // The large format when its length prefix fails to decode.
  lemma LargeFormatPrefixErr(signed: bool, opt: ReadOptions, s: seq<Byte>, peek8: bool, e: ReadError)
    requires |s| >= 3 && s[0] == 0xFE && s[1] < 0xFE
    requires DecodeIntOrNullWith(UInt32, opt, s[1..], peek8) == Err(e)
    ensures DecodeLargeFormatInt64(signed, opt, s, peek8) == Err(e)
  {
  }

  // The integerSize bytes of a large-format number. Bytes beyond the last 8
  // must be zero unless large numbers are truncated silently. The cursor is
  // advanced past the number's bytes twice, once inside
  // ReadRemainingBytesAsBigEndian and once after it. A length of 0 gives the
  // next 8 bytes when they are loaded (the fast path of
  // ReadRemainingBytesAsBigEndian) and 0 otherwise.
  function LargeBody(signed: bool, opt: ReadOptions, s: seq<Byte>, integerSize: nat, peek8: bool): (r: Result<(int, nat), ReadError>)
  {
    if |s| < integerSize then Err(UnexpectedEof)
    else if integerSize > 8 && !opt.silentlyTruncateLargeNumbers && !AllZero(s[..integerSize - 8]) then
      Err(IntegerTooLarge)
    else
      var q := if integerSize > 8 then integerSize - 8 else 0;
      var size := if integerSize > 8 then 8 else integerSize;
      var number := Cast(Int64, RemainingBigEndian(s[q..], size, peek8));
      var value := if signed then SignExtendBytes(number, size) else number;
      Ok((value, q + size + size))
  }

  // ReadRemainingBytesAsBigEndian on the input rest: the first size bytes
  // as a big-endian number, read by the fast path when 8 bytes are loaded
  // (peek8) and present.
  function RemainingBigEndian(rest: seq<Byte>, size: nat, peek8: bool): (r: nat)
    requires size <= 8 && size <= |rest|
    ensures size > 0 ==> r == BigEndian(rest[..size])
    ensures size == 0 ==> r == if peek8 && |rest| >= 8 then BigEndian(rest[..8]) else 0
  {
    if peek8 && |rest| >= 8 then FastRemaining(rest, size) else BigEndian(rest[..size])
  }

  // ReadNormalInt<T>: a null is an error unless ReadNullPrimitivesAsDefault
  // is set, in which case it reads as 0.
  function ReadNormalInt(t: IntType, opt: ReadOptions, s: seq<Byte>, peek8: bool): (r: Result<(int, nat), ReadError>)
    requires IsNormal(t)
    ensures r.Ok? ==> InRange(t, r.value.0)
  {
    match DecodeIntOrNullWith(t, opt, s, peek8)
    case Err(e) => Err(e)
    case Ok(d) =>
      if d.value.Some? then Ok((d.value.value, d.size))
      else if opt.readNullPrimitivesAsDefault then Ok((0, d.size))
      else Err(UnexpectedNull)
  }

  // ReadSmallIntOrNull<T> for T = short, ushort, sbyte or byte: an int is
  // decoded, checked against T's range unless truncation is allowed, and
  // narrowed.
  function ReadSmallIntOrNull(t: IntType, opt: ReadOptions, s: seq<Byte>, peek8: bool): (r: Result<Decoded, ReadError>)
    requires t.SByte? || t.Byte8? || t.Int16? || t.UInt16?
    ensures r.Ok? && r.value.value.Some? ==> InRange(t, r.value.value.value)
  {
    match DecodeIntOrNullWith(Int32, opt, s, peek8)
    case Err(e) => Err(e)
    case Ok(d) =>
      match d.value
      case None => Ok(d)
      case Some(v) =>
        if !opt.silentlyTruncateLargeNumbers && !InRange(t, v) then Err(NumberTooLarge(t))
        else Ok(Decoded(Some(Cast(t, v)), d.size))
  }

  // ReadSmallInt<T>: as ReadSmallIntOrNull, with null handled as in
  // ReadNormalInt.
  function ReadSmallInt(t: IntType, opt: ReadOptions, s: seq<Byte>, peek8: bool): (r: Result<(int, nat), ReadError>)
    requires t.SByte? || t.Byte8? || t.Int16? || t.UInt16?
    ensures r.Ok? ==> InRange(t, r.value.0)
  {
    match ReadSmallIntOrNull(t, opt, s, peek8)
    case Err(e) => Err(e)
    case Ok(d) =>
      if d.value.Some? then Ok((d.value.value, d.size))
      else if opt.readNullPrimitivesAsDefault then Ok((0, d.size))
      else Err(UnexpectedNull)
  }
}
