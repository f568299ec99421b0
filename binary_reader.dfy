// SyncBinary.ReaderState: the reading frame over the input, the cursor that
// the readers advance, and the error latch. The input is either one block of
// memory or a scanner that hands out blocks of a longer stream; the scanner
// is given here by the bytes it would deliver and the block size it uses.
//
// Each reader is proved against the pure decoder of BinaryFormat applied to
// the input from the reader's stream position on.
module SyncBinaryReader {
  import opened Wrappers
  import opened BinaryFormat

  // int.MaxValue, which ObjectStartIndex holds when no object start must stay
  // loaded.
  const NoObject: int := 0x7FFF_FFFF

  // The smallest scan request ReadMoreBytes makes.
  const DefaultMinimumScanSize: nat := 32

  function Min(a: int, b: int): int { if a <= b then a else b }

  function Max(a: int, b: int): int { if a >= b then a else b }

  // The bytes of s from position n on; none once n is past the end. It is
  // written by recursion so that a reader's contract, which names it, does
  // not open into slices of the whole input; DropIs gives its meaning.
  function Drop(s: seq<Byte>, n: nat): (r: seq<Byte>)
    ensures |r| == if n <= |s| then |s| - n else 0
    ensures n < |s| ==> r[0] == s[n]
    decreases n
  {
    if n == 0 || s == [] then s else Drop(s[1..], n - 1)
  }

  lemma {:induction false} DropIs(s: seq<Byte>, n: nat)
    ensures Drop(s, n) == if n <= |s| then s[n..] else []
    decreases n
  {
    if n == 0 || s == [] {
    } else {
      DropIs(s[1..], n - 1);
      if n <= |s| {
        assert s[1..][n - 1..] == s[n..];
      }
    }
  }

  lemma DropDrop(s: seq<Byte>, n: nat, m: nat)
    requires m <= |Drop(s, n)|
    ensures Drop(s, n + m) == Drop(s, n)[m..]
  {
    DropIs(s, n);
    DropIs(s, n + m);
  }

  // buf holds the input from stream position start on: the loaded window
  // of a reader, possibly empty.
  ghost predicate Window(stream: seq<Byte>, start: nat, buf: seq<Byte>)
  {
    (|buf| == 0 || start + |buf| <= |stream|)
    && forall j :: 0 <= j < |buf| ==> buf[j] == stream[start + j]
  }

  // The block a scanner returns when asked for at least minLength bytes from
  // stream position start: everything that is left, or more than minLength
  // bytes when its block size is larger.
  function ScannerBlock(stream: seq<Byte>, start: nat, minLength: nat, blockSize: nat): (r: seq<Byte>)
    ensures Window(stream, start, r)
    ensures |r| == Min(|Drop(stream, start)|, Max(minLength, blockSize))
  {
    DropIs(stream, start);
    var rest := Drop(stream, start);
    rest[..Min(|rest|, Max(minLength, blockSize))]
  }

  // The exception a throw produces: once a fatal error is recorded, every
  // later error is that one.
  function Latched(fatal: Option<ReadError>, e: ReadError): (r: ReadError)
    ensures fatal.Some? ==> r == fatal.value
    ensures fatal.None? ==> r == e
  {
    if fatal.Some? then fatal.value else e
  }

  // n loaded bytes at cursor cur are the input from stream position
  // start + cur on.
  lemma WindowAgrees(stream: seq<Byte>, start: nat, buf: seq<Byte>, cur: nat, n: nat)
    requires Window(stream, start, buf) && n > 0 && cur + n <= |buf|
    ensures start + cur + n <= |stream|
    ensures buf[cur..cur + n] == Drop(stream, start + cur)[..n]
  {
    DropIs(stream, start + cur);
  }

  // The loaded byte at cursor cur is the first byte of the input from
  // start + cur on.
  lemma ByteAt(stream: seq<Byte>, start: nat, buf: seq<Byte>, cur: nat)
    requires Window(stream, start, buf) && cur < |buf|
    ensures |Drop(stream, start + cur)| >= |buf| - cur
    ensures Drop(stream, start + cur)[0] == buf[cur]
  {
    DropIs(stream, start + cur);
  }

  // ReadRemainingBytesAsBigEndian: the next sizeOfRemaining bytes as a
  // big-endian number, the cursor moved past them. With 8 or more bytes
  // loaded it reads 8 and shifts the unwanted ones out, which for a size of 0
  // (a shift of 64, masked to 0) keeps all 8.
  method ReadRemainingBytesAsBigEndian(window: seq<Byte>, cur: nat, sizeOfRemaining: nat)
    returns (number: nat, newCur: nat)
    requires sizeOfRemaining <= 8 && cur + sizeOfRemaining <= |window|
    ensures newCur == cur + sizeOfRemaining
    ensures sizeOfRemaining > 0 ==> number == BigEndian(window[cur..newCur])
    ensures sizeOfRemaining == 0 ==>
      number == if |window| - cur >= 8 then BigEndian(window[cur..cur + 8]) else 0
  {
    if |window| - cur >= 8 {
      number := FastRemaining(window[cur..], sizeOfRemaining);
      assert window[cur..][..sizeOfRemaining] == window[cur..cur + sizeOfRemaining];
      assert window[cur..][..8] == window[cur..cur + 8];
      newCur := cur + sizeOfRemaining;
    } else {
      number, newCur := ReadInLoop(window, cur, sizeOfRemaining);
    }
  }

  // The slow path: `number = (number << 8) + cur.Byte` once per byte. At most
  // 8 bytes are read, so the ulong never wraps.
  method ReadInLoop(window: seq<Byte>, cur: nat, sizeOfRemaining: nat) returns (number: nat, newCur: nat)
    requires sizeOfRemaining <= 8 && cur + sizeOfRemaining <= |window|
    ensures newCur == cur + sizeOfRemaining
    ensures number == BigEndian(window[cur..newCur])
  {
    number, newCur := 0, cur;
    var i := 0;
    while i < sizeOfRemaining
      invariant 0 <= i <= sizeOfRemaining && newCur == cur + i
      invariant number == BigEndian(window[cur..newCur])
    {
      assert window[cur..newCur + 1][..i] == window[cur..newCur];
      number := number * 256 + window[newCur];
      newCur := newCur + 1;
      i := i + 1;
    }
  }

  // What the reader's ReadRemainingBytesAsBigEndian returns is what the
  // pure decoder reads from the input at that position, given whether 8
  // bytes were loaded there (always so when the buffer is the whole input).
  lemma RawAgrees(stream: seq<Byte>, start: nat, buf: seq<Byte>, cur: nat, p: nat, size: nat,
                  wholeInput: bool, peek8: bool, raw: nat)
    requires Window(stream, start, buf) && p == start + cur
    requires wholeInput ==> start == 0 && |buf| == |stream|
    requires peek8 == (wholeInput || |buf| - cur >= 8)
    requires size <= 8 && cur + size <= |buf|
    requires size > 0 ==> raw == BigEndian(buf[cur..cur + size])
    requires size == 0 ==> raw == if |buf| - cur >= 8 then BigEndian(buf[cur..cur + 8]) else 0
    ensures size <= |Drop(stream, p)| && raw == RemainingBigEndian(Drop(stream, p), size, peek8)
  {
    DropIs(stream, p);
    var rest := Drop(stream, p);
    if size > 0 {
      WindowAgrees(stream, start, buf, cur, size);
    }
    if |buf| - cur >= 8 {
      WindowAgrees(stream, start, buf, cur, 8);
      assert rest[..8][..size] == rest[..size];
    } else if wholeInput {
      assert |rest| < 8;
    } else {
      assert size == 0 ==> rest[..size] == [];
    }
  }

  lemma MultiByteEof(t: IntType, opt: ReadOptions, s: seq<Byte>)
    requires IsNormal(t) && |s| >= 1 && 0x80 <= s[0] < 0xFE && |s| < 1 + TagLength(s[0])
    ensures BinaryFormat.DecodeMultiByte(t, opt, s) == Err(UnexpectedEof)
  {
  }

  // The small format read from the window: the tag at stream position pos,
  // then k loaded bytes at cursor c, one position further on, whose value is
  // low.
  lemma MultiByteFromWindow(t: IntType, opt: ReadOptions, stream: seq<Byte>, start: nat, buf: seq<Byte>,
                            c: nat, pos: nat, tag: Byte, low: nat)
    requires IsNormal(t) && Window(stream, start, buf)
    requires start + c == pos + 1 && pos < |stream| && stream[pos] == tag && 0x80 <= tag < 0xFE
    requires c + TagLength(tag) <= |buf| && low == BigEndian(buf[c..c + TagLength(tag)])
    ensures BinaryFormat.DecodeMultiByte(t, opt, Drop(stream, pos)) == MultiByteValue(t, opt, tag, low)
  {
    DropIs(stream, pos);
    var s := Drop(stream, pos);
    var k := TagLength(tag);
    WindowAgrees(stream, start, buf, c, k);
    DropDrop(stream, pos, 1);
    assert buf[c..c + k] == s[1..1 + k];
    MultiByteIs(t, opt, s, tag, k, low);
  }

  // Whether the loaded bytes are zero is whether the input there is.
  lemma ZeroesAgree(stream: seq<Byte>, start: nat, buf: seq<Byte>, cur: nat, p: nat, n: nat)
    requires Window(stream, start, buf) && p == start + cur && n > 0 && cur + n <= |buf|
    ensures AllZero(buf[cur..cur + n]) <==> AllZero(Drop(stream, p)[..n])
  {
    DropIs(stream, p);
    WindowAgrees(stream, start, buf, cur, n);
  }

  // DecodeMultiByte on a tag and k further bytes whose big-endian value is low.
  lemma MultiByteIs(t: IntType, opt: ReadOptions, s: seq<Byte>, tag: Byte, k: nat, low: nat)
    requires IsNormal(t) && |s| >= 1 && s[0] == tag && 0x80 <= tag < 0xFE && k == TagLength(tag) && |s| >= 1 + k
    requires low == BigEndian(s[1..1 + k])
    ensures BinaryFormat.DecodeMultiByte(t, opt, s) == MultiByteValue(t, opt, tag, low)
  {
  }

  // A reader's outcome r agrees with the pure decoder's d when it returns
  // d's value having moved the cursor d's size forward, or fails with d's
  // error (or the recorded fatal one).
  ghost predicate DecodesAs(r: Result<Option<int>, ReadError>, fatal: Option<ReadError>,
                            d: Result<Decoded, ReadError>, moved: int)
  {
    match d
    case Ok(v) => r == Ok(v.value) && moved == v.size
    case Err(e) => r == Err(Latched(fatal, e))
  }

  ghost predicate ReadsAs(r: Result<int, ReadError>, fatal: Option<ReadError>,
                          d: Result<(int, nat), ReadError>, moved: int)
  {
    match d
    case Ok(v) => r == Ok(v.0) && moved == v.1
    case Err(e) => r == Err(Latched(fatal, e))
  }

  // Below the 0xFE tag the window size plays no part, and the value is never
  // null.
  lemma SmallFormatIgnoresWindow(t: IntType, opt: ReadOptions, s: seq<Byte>, peek8: bool)
    requires IsNormal(t) && |s| > 0 && s[0] < 0xFE
    ensures DecodeIntOrNullWith(t, opt, s, peek8) == DecodeIntOrNull(t, opt, s)
    ensures DecodeIntOrNull(t, opt, s).Ok? ==> DecodeIntOrNull(t, opt, s).value.value.Some?
  {
  }

  // The outcome of each path through the reader's DecodeIntOrNull, stated
  // for the input from stream position pos on.

  lemma IntEof(t: IntType, opt: ReadOptions, stream: seq<Byte>, pos: nat, peek8: bool,
               fatal: Option<ReadError>, r: Result<Option<int>, ReadError>, moved: int)
    requires IsNormal(t) && pos >= |stream| && r == Err(Latched(fatal, UnexpectedEof))
    ensures DecodesAs(r, fatal, DecodeIntOrNullWith(t, opt, Drop(stream, pos), peek8), moved)
  {
    DropIs(stream, pos);
  }

  lemma IntSmall(t: IntType, opt: ReadOptions, stream: seq<Byte>, pos: nat, peek8: bool,
                 fatal: Option<ReadError>, r: Result<Option<int>, ReadError>, moved: int)
    requires IsNormal(t) && pos < |stream| && stream[pos] < 0x80
    requires r == Ok(Some(SmallValue(t, stream[pos]))) && moved == 1
    ensures DecodesAs(r, fatal, DecodeIntOrNullWith(t, opt, Drop(stream, pos), peek8), moved)
  {
    DropIs(stream, pos);
  }

  lemma IntMulti(t: IntType, opt: ReadOptions, stream: seq<Byte>, pos: nat, peek8: bool,
                 fatal: Option<ReadError>, r: Result<Option<int>, ReadError>, moved: int)
    requires IsNormal(t) && pos < |stream| && 0x80 <= stream[pos] < 0xFE
    requires DecodesAs(r, fatal, BinaryFormat.DecodeMultiByte(t, opt, Drop(stream, pos)), moved)
    ensures DecodesAs(r, fatal, DecodeIntOrNullWith(t, opt, Drop(stream, pos), peek8), moved)
  {
    DropIs(stream, pos);
  }

  lemma IntNull(t: IntType, opt: ReadOptions, stream: seq<Byte>, pos: nat, peek8: bool,
                fatal: Option<ReadError>, r: Result<Option<int>, ReadError>, moved: int)
    requires IsNormal(t) && pos < |stream| && stream[pos] == 0xFF && r == Ok(None) && moved == 0
    ensures DecodesAs(r, fatal, DecodeIntOrNullWith(t, opt, Drop(stream, pos), peek8), moved)
  {
    DropIs(stream, pos);
  }

  lemma IntLarge(t: IntType, opt: ReadOptions, stream: seq<Byte>, pos: nat, peek8: bool,
                 fatal: Option<ReadError>, v: Result<int, ReadError>, r: Result<Option<int>, ReadError>, moved: int)
    requires IsNormal(t) && pos < |stream| && stream[pos] == 0xFE
    requires ReadsAs(v, fatal, BinaryFormat.DecodeLargeFormatInt64(IsSigned(t), opt, Drop(stream, pos), peek8), moved)
    requires r == if v.Err? then Err(v.error) else Ok(Some(Cast(t, v.value)))
    ensures DecodesAs(r, fatal, DecodeIntOrNullWith(t, opt, Drop(stream, pos), peek8), moved)
  {
    DropIs(stream, pos);
  }

  // The paths through the reader's DecodeLargeFormatInt64, for the 0xFE tag
  // at stream position pos.

  lemma LargeEof(signed: bool, opt: ReadOptions, stream: seq<Byte>, pos: nat, peek8: bool,
                 fatal: Option<ReadError>, r: Result<int, ReadError>, moved: int)
    requires pos < |stream| && stream[pos] == 0xFE && |stream| < pos + 3
    requires r == Err(Latched(fatal, UnexpectedEof))
    ensures ReadsAs(r, fatal, BinaryFormat.DecodeLargeFormatInt64(signed, opt, Drop(stream, pos), peek8), moved)
  {
    DropIs(stream, pos);
  }

  lemma LargeBadPrefix(signed: bool, opt: ReadOptions, stream: seq<Byte>, pos: nat, peek8: bool,
                       fatal: Option<ReadError>, r: Result<int, ReadError>, moved: int)
    requires pos + 3 <= |stream| && stream[pos] == 0xFE && stream[pos + 1] >= 0xFE
    requires r == Err(Latched(fatal, if stream[pos + 1] == 0xFF then NumberLengthIsNull else LengthPrefixIsLengthPrefixed))
    ensures ReadsAs(r, fatal, BinaryFormat.DecodeLargeFormatInt64(signed, opt, Drop(stream, pos), peek8), moved)
  {
    DropIs(stream, pos);
  }

  // The length prefix decodes from stream position pos + 1 without regard to
  // the window; len is what the reader made of it.
  ghost predicate PrefixRead(opt: ReadOptions, stream: seq<Byte>, pos: nat, fatal: Option<ReadError>,
                             len: Result<Option<int>, ReadError>, lenPeek8: bool, m: int)
  {
    pos + 3 <= |stream| && stream[pos] == 0xFE && stream[pos + 1] < 0xFE
    && DecodesAs(len, fatal, DecodeIntOrNullWith(UInt32, opt, Drop(stream, pos + 1), lenPeek8), m)
  }

  lemma PrefixIsValue(opt: ReadOptions, stream: seq<Byte>, pos: nat, fatal: Option<ReadError>,
                      len: Result<Option<int>, ReadError>, lenPeek8: bool, m: int)
    requires PrefixRead(opt, stream, pos, fatal, len, lenPeek8, m) && len.Ok?
    ensures len.value.Some? && 1 <= m && pos + 1 + m <= |stream|
    ensures DecodeIntOrNull(UInt32, opt, Drop(stream, pos + 1)) == Ok(Decoded(len.value, m))
  {
    SmallFormatIgnoresWindow(UInt32, opt, Drop(stream, pos + 1), lenPeek8);
  }

  // The large format's first two bytes at stream position pos; s is the
  // input from there on.
  lemma LargeHead(stream: seq<Byte>, pos: nat, s: seq<Byte>)
    requires pos + 3 <= |stream| && stream[pos] == 0xFE && stream[pos + 1] < 0xFE && s == Drop(stream, pos)
    ensures |s| >= 3 && s[0] == 0xFE && s[1] < 0xFE && s[1..] == Drop(stream, pos + 1)
  {
    DropDrop(stream, pos, 1);
  }

  lemma LargePrefixErr(signed: bool, opt: ReadOptions, stream: seq<Byte>, pos: nat, peek8: bool,
                       fatal: Option<ReadError>, len: Result<Option<int>, ReadError>, lenPeek8: bool, m: int,
                       r: Result<int, ReadError>, moved: int)
    requires PrefixRead(opt, stream, pos, fatal, len, lenPeek8, m) && len.Err? && r == Err(len.error)
    ensures ReadsAs(r, fatal, BinaryFormat.DecodeLargeFormatInt64(signed, opt, Drop(stream, pos), peek8), moved)
  {
    var s := Drop(stream, pos);
    LargeHead(stream, pos, s);
    SmallFormatIgnoresWindow(UInt32, opt, s[1..], lenPeek8);
    SmallFormatIgnoresWindow(UInt32, opt, s[1..], peek8);
    LargeFormatPrefixErr(signed, opt, s, peek8, DecodeIntOrNull(UInt32, opt, s[1..]).error);
  }

  lemma LargeSizeErr(signed: bool, opt: ReadOptions, stream: seq<Byte>, pos: nat, peek8: bool,
                     fatal: Option<ReadError>, l: int, m: nat, r: Result<int, ReadError>, moved: int)
    requires pos + 3 <= |stream| && stream[pos] == 0xFE && stream[pos + 1] < 0xFE
    requires DecodeIntOrNull(UInt32, opt, Drop(stream, pos + 1)) == Ok(Decoded(Some(l), m))
    requires var integerSize := Cast(Int32, l);
      (integerSize > opt.maxNumberSize && r == Err(Latched(fatal, LengthPrefixTooLarge)))
      || (integerSize <= opt.maxNumberSize && integerSize < 0 && r == Err(Latched(fatal, NegativeLengthPrefix)))
    ensures ReadsAs(r, fatal, BinaryFormat.DecodeLargeFormatInt64(signed, opt, Drop(stream, pos), peek8), moved)
  {
    var s := Drop(stream, pos);
    LargeHead(stream, pos, s);
    SmallFormatIgnoresWindow(UInt32, opt, s[1..], peek8);
    LargeFormatIs(signed, opt, s, peek8, l, m);
  }

  lemma LargeDone(signed: bool, opt: ReadOptions, stream: seq<Byte>, pos: nat, peek8: bool,
                  fatal: Option<ReadError>, l: int, m: nat, integerSize: nat, r: Result<int, ReadError>, m2: int, moved: int)
    requires pos + 3 <= |stream| && stream[pos] == 0xFE && stream[pos + 1] < 0xFE
    requires DecodeIntOrNull(UInt32, opt, Drop(stream, pos + 1)) == Ok(Decoded(Some(l), m))
    requires integerSize == Cast(Int32, l) && integerSize <= opt.maxNumberSize
    requires pos + 1 + m <= |stream|
    requires ReadsAs(r, fatal, LargeBody(signed, opt, Drop(stream, pos + 1 + m), integerSize, peek8), m2)
    requires moved == 1 + m + m2
    ensures ReadsAs(r, fatal, BinaryFormat.DecodeLargeFormatInt64(signed, opt, Drop(stream, pos), peek8), moved)
  {
    var s := Drop(stream, pos);
    LargeHead(stream, pos, s);
    SmallFormatIgnoresWindow(UInt32, opt, s[1..], peek8);
    LargeFormatIs(signed, opt, s, peek8, l, m);
    DropDrop(stream, pos, 1 + m);
  }

  // The paths through the reader's ReadLargeBody, for integerSize bytes at
  // stream position pos.

  lemma BodyEof(signed: bool, opt: ReadOptions, stream: seq<Byte>, pos: nat, integerSize: nat, peek8: bool,
                fatal: Option<ReadError>, r: Result<int, ReadError>, moved: int)
    requires |Drop(stream, pos)| < integerSize && r == Err(Latched(fatal, UnexpectedEof))
    ensures ReadsAs(r, fatal, LargeBody(signed, opt, Drop(stream, pos), integerSize, peek8), moved)
  {
    DropIs(stream, pos);
  }

  lemma BodyNotZero(signed: bool, opt: ReadOptions, stream: seq<Byte>, start: nat, buf: seq<Byte>, cur: nat,
                    pos: nat, integerSize: nat, peek8: bool, fatal: Option<ReadError>, r: Result<int, ReadError>, moved: int)
    requires Window(stream, start, buf) && pos == start + cur && cur + integerSize <= |buf|
    requires integerSize > 8 && !opt.silentlyTruncateLargeNumbers
    requires !AllZero(buf[cur..cur + integerSize - 8]) && r == Err(Latched(fatal, IntegerTooLarge))
    ensures ReadsAs(r, fatal, LargeBody(signed, opt, Drop(stream, pos), integerSize, peek8), moved)
  {
    DropIs(stream, pos);
    ZeroesAgree(stream, start, buf, cur, pos, integerSize - 8);
  }

  // c0 is the cursor at the number's first byte, cur the one past the
  // leading bytes that must be zero.
  lemma BodyDone(signed: bool, opt: ReadOptions, stream: seq<Byte>, start: nat, buf: seq<Byte>, c0: nat, cur: nat,
                 pos: nat, integerSize: nat, wholeInput: bool, peek8: bool, fatal: Option<ReadError>,
                 size: nat, raw: nat, r: Result<int, ReadError>, moved: int)
    requires Window(stream, start, buf) && pos == start + c0 && c0 + integerSize <= |buf|
    requires wholeInput ==> start == 0 && |buf| == |stream|
    requires peek8 == (wholeInput || |buf| - cur >= 8)
    requires integerSize > 8 && !opt.silentlyTruncateLargeNumbers ==> AllZero(buf[c0..c0 + integerSize - 8])
    requires cur == c0 + (if integerSize > 8 then integerSize - 8 else 0)
    requires size == (if integerSize > 8 then 8 else integerSize)
    requires size > 0 ==> raw == BigEndian(buf[cur..cur + size])
    requires size == 0 ==> raw == if |buf| - cur >= 8 then BigEndian(buf[cur..cur + 8]) else 0
    requires r == Ok(if signed then SignExtendBytes(Cast(Int64, raw), size) else Cast(Int64, raw))
    requires moved == cur - c0 + size + size
    ensures ReadsAs(r, fatal, LargeBody(signed, opt, Drop(stream, pos), integerSize, peek8), moved)
  {
    DropIs(stream, pos);
    var q := cur - c0;
    if integerSize > 8 && !opt.silentlyTruncateLargeNumbers {
      ZeroesAgree(stream, start, buf, c0, pos, integerSize - 8);
    }
    RawAgrees(stream, start, buf, cur, pos + q, size, wholeInput, peek8, raw);
    DropDrop(stream, pos, q);
  }

  // The public readers on top of DecodeIntOrNull: v and moved are what
  // DecodeIntOrNull produced for the input s.

  lemma NormalIntOutcome(t: IntType, opt: ReadOptions, s: seq<Byte>, peek8: bool, fatal: Option<ReadError>,
                         v: Result<Option<int>, ReadError>, moved: int, movedOut: int, r: Result<int, ReadError>)
    requires IsNormal(t) && DecodesAs(v, fatal, DecodeIntOrNullWith(t, opt, s, peek8), moved)
    requires v.Err? ==> r == Err(v.error)
    requires v.Ok? && v.value.Some? ==> r == Ok(v.value.value)
    requires v.Ok? && v.value.None? ==>
      r == if opt.readNullPrimitivesAsDefault then Ok(0) else Err(Latched(fatal, ReadError.UnexpectedNull))
    requires r.Ok? ==> movedOut == moved
    ensures ReadsAs(r, fatal, BinaryFormat.ReadNormalInt(t, opt, s, peek8), movedOut)
  {
  }

  lemma SmallIntOrNullOutcome(t: IntType, opt: ReadOptions, s: seq<Byte>, peek8: bool, fatal: Option<ReadError>,
                              v: Result<Option<int>, ReadError>, moved: int, movedOut: int, r: Result<Option<int>, ReadError>)
    requires t.SByte? || t.Byte8? || t.Int16? || t.UInt16?
    requires DecodesAs(v, fatal, DecodeIntOrNullWith(Int32, opt, s, peek8), moved)
    requires v.Err? ==> r == Err(v.error)
    requires v.Ok? && v.value.None? ==> r == Ok(None)
    requires v.Ok? && v.value.Some? ==>
      r == if !opt.silentlyTruncateLargeNumbers && !InRange(t, v.value.value) then Err(Latched(fatal, NumberTooLarge(t)))
           else Ok(Some(Cast(t, v.value.value)))
    requires r.Ok? ==> movedOut == moved
    ensures DecodesAs(r, fatal, BinaryFormat.ReadSmallIntOrNull(t, opt, s, peek8), movedOut)
  {
  }

  lemma SmallIntOutcome(t: IntType, opt: ReadOptions, s: seq<Byte>, peek8: bool, fatal: Option<ReadError>,
                        v: Result<Option<int>, ReadError>, moved: int, movedOut: int, r: Result<int, ReadError>)
    requires t.SByte? || t.Byte8? || t.Int16? || t.UInt16?
    requires DecodesAs(v, fatal, BinaryFormat.ReadSmallIntOrNull(t, opt, s, peek8), moved)
    requires v.Err? ==> r == Err(v.error)
    requires v.Ok? && v.value.Some? ==> r == Ok(v.value.value)
    requires v.Ok? && v.value.None? ==>
      r == if opt.readNullPrimitivesAsDefault then Ok(0) else Err(Latched(fatal, ReadError.UnexpectedNull))
    requires r.Ok? ==> movedOut == moved
    ensures ReadsAs(r, fatal, BinaryFormat.ReadSmallInt(t, opt, s, peek8), movedOut)
  {
  }

  class ReaderState {
    const opt: ReadOptions
    // Whether the input comes from a scanner rather than from one block.
    const hasScanner: bool
    // The whole input: the block given to the constructor, or every byte the
    // scanner would deliver.
    const stream: seq<Byte>
    // The scanner returns at least this many bytes when it has them.
    const blockSize: nat
    // The stream position of _frame.Buf[0] (where the scanner stands).
    var bufStart: nat
    // _frame.Buf: the loaded window.
    var buf: seq<Byte>
    // _frame.Index: the committed cursor, an index into buf.
    var index: nat
    // _frame.ObjectStartIndex. It is never given a value, so it keeps the
    // struct default 0 rather than the int.MaxValue its comment intends.
    var objectStartIndex: int
    // _fatalError
    var fatalError: Option<ReadError>

    ghost predicate Valid()
      reads this
    {
      Window(stream, bufStart, buf)
      && (!hasScanner ==> bufStart == 0 && |buf| == |stream|)
      && objectStartIndex >= 0
    }

    // ReaderState(ReadOnlyMemory<byte> bytes, Options options).
    constructor FromBytes(bytes: seq<Byte>, options: ReadOptions)
      ensures Valid() && !hasScanner && stream == bytes && opt == options
      ensures buf == bytes && bufStart == 0 && index == 0
      ensures objectStartIndex == 0 && fatalError == None
    {
      opt, hasScanner, stream, blockSize := options, false, bytes, 0;
      bufStart, buf, index := 0, bytes, 0;
      objectStartIndex, fatalError := 0, None;
    }

    // ReaderState(IScanner<byte> scanner, Options options): nothing is loaded
    // until the first read.
    constructor FromScanner(input: seq<Byte>, scannerBlockSize: nat, options: ReadOptions)
      ensures Valid() && hasScanner && stream == input && blockSize == scannerBlockSize
      ensures opt == options && buf == [] && bufStart == 0 && index == 0
      ensures objectStartIndex == 0 && fatalError == None
    {
      opt, hasScanner, stream, blockSize := options, true, input, scannerBlockSize;
      bufStart, buf, index := 0, [], 0;
      objectStartIndex, fatalError := 0, None;
    }

    // NewError: a fresh error, or the recorded fatal one; a fatal error is
    // recorded if none was before.
    method NewError(e: ReadError, fatal: bool) returns (err: ReadError)
      modifies this`fatalError
      ensures err == Latched(old(fatalError), e)
      ensures fatalError == if old(fatalError).None? && fatal then Some(e) else old(fatalError)
    {
      if fatalError.Some? {
        return fatalError.value;
      }
      err := e;
      if fatal {
        fatalError := Some(e);
      }
    }

    // ReadMoreBytes: asks the scanner for a new window that drops the bytes
    // before min(cur, ObjectStartIndex) and holds at least cur +
    // max(requiredBytes, 32) bytes, then reports whether requiredBytes are
    // loaded past the cursor. The cursor keeps its stream position.
    method ReadMoreBytes(cur: nat, requiredBytes: nat) returns (newCur: nat, ok: bool)
      requires Valid() && |buf| < cur + requiredBytes
      modifies this`buf, this`bufStart, this`objectStartIndex
      ensures Valid()
      ensures bufStart + newCur == old(bufStart) + cur
      ensures !hasScanner ==>
        !ok && newCur == cur && buf == old(buf) && bufStart == old(bufStart) && objectStartIndex == old(objectStartIndex)
      ensures hasScanner ==>
        var skip := Min(cur, old(objectStartIndex));
        newCur == cur - skip && bufStart == old(bufStart) + skip
        && objectStartIndex == (if old(objectStartIndex) != NoObject then old(objectStartIndex) - skip else NoObject)
        && buf == ScannerBlock(stream, bufStart, newCur + Max(requiredBytes, DefaultMinimumScanSize), blockSize)
      ensures ok <==> newCur + requiredBytes <= |buf|
      ensures requiredBytes > 0 ==> (ok <==> bufStart + newCur + requiredBytes <= |stream|)
      // With ObjectStartIndex left at 0 the scanner never drops a byte.
      ensures old(objectStartIndex) == 0 ==> bufStart == old(bufStart) && objectStartIndex == 0 && newCur == cur
    {
      if !hasScanner {
        return cur, false;
      }
      var requestSize := Max(requiredBytes, DefaultMinimumScanSize);
      var skip := Min(cur, objectStartIndex);
      newCur := cur - skip;
      bufStart := bufStart + skip;
      buf := ScannerBlock(stream, bufStart, newCur + requestSize, blockSize);
      if objectStartIndex != NoObject {
        objectStartIndex := objectStartIndex - skip;
      }
      ok := |buf| - newCur >= requiredBytes;
    }

    // AutoRead: true at once when requiredBytes are loaded past the cursor;
    // otherwise ReadMoreBytes decides.
    method AutoRead(cur: nat, requiredBytes: nat) returns (newCur: nat, ok: bool)
      requires Valid()
      modifies this`buf, this`bufStart, this`objectStartIndex
      ensures Valid()
      ensures bufStart + newCur == old(bufStart) + cur
      ensures ok <==> newCur + requiredBytes <= |buf|
      ensures requiredBytes > 0 ==> (ok <==> bufStart + newCur + requiredBytes <= |stream|)
      ensures old(cur + requiredBytes <= |buf|) ==>
        newCur == cur && buf == old(buf) && bufStart == old(bufStart) && objectStartIndex == old(objectStartIndex)
      ensures !hasScanner ==> newCur == cur && bufStart == old(bufStart)
    {
      if cur + requiredBytes <= |buf| {
        return cur, true;
      }
      newCur, ok := ReadMoreBytes(cur, requiredBytes);
    }

    // ExpectBytes: AutoRead, and the end-of-data error when it fails.
    method ExpectBytes(cur: nat, requiredBytes: nat) returns (newCur: nat, err: Option<ReadError>)
      requires Valid()
      modifies this`buf, this`bufStart, this`objectStartIndex, this`fatalError
      ensures Valid() && fatalError == old(fatalError)
      ensures bufStart + newCur == old(bufStart) + cur
      ensures err.None? <==> newCur + requiredBytes <= |buf|
      ensures err.Some? ==> err.value == Latched(old(fatalError), UnexpectedEof)
      ensures requiredBytes > 0 ==> (err.None? <==> bufStart + newCur + requiredBytes <= |stream|)
      ensures old(cur + requiredBytes <= |buf|) ==> err.None? && newCur == cur
      ensures !hasScanner ==> newCur == cur && bufStart == old(bufStart)
    {
      var ok;
      newCur, ok := AutoRead(cur, requiredBytes);
      if ok {
        return newCur, None;
      }
      var e := NewError(UnexpectedEof, false);
      err := Some(e);
    }

    // MaybeThrowIntegerOverflowIf: an overflow is an error unless large
    // numbers may be truncated silently.
    method MaybeThrowIntegerOverflowIf(overflow: bool, expected: IntType) returns (err: Option<ReadError>)
      modifies this`fatalError
      ensures fatalError == old(fatalError)
      ensures err == if !opt.silentlyTruncateLargeNumbers && overflow
                     then Some(Latched(old(fatalError), NumberTooLarge(expected))) else None
    {
      err := None;
      if !opt.silentlyTruncateLargeNumbers && overflow {
        var e := NewError(NumberTooLarge(expected), false);
        err := Some(e);
      }
    }

    // ExpectZeroes: every byte of span must be zero.
    method ExpectZeroes(span: seq<Byte>) returns (err: Option<ReadError>)
      modifies this`fatalError
      ensures fatalError == old(fatalError)
      ensures err == if AllZero(span) then None else Some(Latched(old(fatalError), IntegerTooLarge))
    {
      var i := 0;
      while i < |span|
        invariant 0 <= i <= |span|
        invariant forall j :: 0 <= j < i ==> span[j] == 0
      {
        if span[i] != 0 {
          var e := NewError(IntegerTooLarge, false);
          return Some(e);
        }
        i := i + 1;
      }
      return None;
    }

    // UnexpectedNull: the default value when nulls may be read as default,
    // otherwise the "unexpected null" error.
    method UnexpectedNull(fatal: bool) returns (r: Result<int, ReadError>)
      modifies this`fatalError
      ensures r == if opt.readNullPrimitivesAsDefault then Ok(0) else Err(Latched(old(fatalError), ReadError.UnexpectedNull))
      ensures fatalError == if !opt.readNullPrimitivesAsDefault && fatal && old(fatalError).None?
                            then Some(ReadError.UnexpectedNull) else old(fatalError)
    {
      if !opt.readNullPrimitivesAsDefault {
        var e := NewError(ReadError.UnexpectedNull, fatal);
        return Err(e);
      }
      return Ok(0);
    }

    // ReadNormalInt<TInt>: a number from the committed cursor on. The cursor
    // is committed once the number (or null) is decoded, also when the null
    // is then an error; when decoding fails first it keeps its old index.
    method ReadNormalInt(t: IntType) returns (r: Result<int, ReadError>, ghost peek8: bool)
      requires Valid() && IsNormal(t)
      modifies this`buf, this`bufStart, this`objectStartIndex, this`fatalError, this`index
      ensures Valid() && fatalError == old(fatalError)
      ensures ReadsAs(r, old(fatalError), BinaryFormat.ReadNormalInt(t, opt, Drop(stream, old(bufStart) + old(index)), peek8),
                      bufStart + index - (old(bufStart) + old(index)))
      ensures DecodeIntOrNullWith(t, opt, Drop(stream, old(bufStart) + old(index)), peek8).Err? ==> index == old(index)
      ensures DecodeIntOrNullWith(t, opt, Drop(stream, old(bufStart) + old(index)), peek8).Ok? ==>
        bufStart + index == old(bufStart) + old(index) + DecodeIntOrNullWith(t, opt, Drop(stream, old(bufStart) + old(index)), peek8).value.size
      ensures !hasScanner ==> peek8
    {
      ghost var pos := bufStart + index;
      var v, c;
      v, c, peek8 := DecodeIntOrNull(t, index, pos);
      if v.Err? {
        NormalIntOutcome(t, opt, Drop(stream, old(bufStart) + old(index)), peek8, old(fatalError), v, bufStart + c - pos,
          bufStart + index - (old(bufStart) + old(index)), Err(v.error));
        return Err(v.error), peek8;
      }
      index := c;
      if v.value.Some? {
        r := Ok(v.value.value);
      } else {
        r := UnexpectedNull(false);
      }
      NormalIntOutcome(t, opt, Drop(stream, old(bufStart) + old(index)), peek8, old(fatalError), v, bufStart + c - pos,
          bufStart + index - (old(bufStart) + old(index)), r);
    }

    // ReadNormalIntOrNull<TInt>: as ReadNormalInt, with a null returned as
    // such.
    method ReadNormalIntOrNull(t: IntType) returns (r: Result<Option<int>, ReadError>, ghost peek8: bool)
      requires Valid() && IsNormal(t)
      modifies this`buf, this`bufStart, this`objectStartIndex, this`fatalError, this`index
      ensures Valid() && fatalError == old(fatalError)
      ensures DecodesAs(r, old(fatalError), DecodeIntOrNullWith(t, opt, Drop(stream, old(bufStart) + old(index)), peek8),
                        bufStart + index - (old(bufStart) + old(index)))
      ensures r.Err? ==> index == old(index)
      ensures !hasScanner ==> peek8
    {
      ghost var pos := bufStart + index;
      var c;
      r, c, peek8 := DecodeIntOrNull(t, index, pos);
      if r.Ok? {
        index := c;
      }
    }

    // ReadSmallIntOrNull<TShort>: an int, checked against the range of
    // TShort before the cursor is committed, and narrowed.
    method ReadSmallIntOrNull(t: IntType) returns (r: Result<Option<int>, ReadError>, ghost peek8: bool)
      requires Valid() && (t.SByte? || t.Byte8? || t.Int16? || t.UInt16?)
      modifies this`buf, this`bufStart, this`objectStartIndex, this`fatalError, this`index
      ensures Valid() && fatalError == old(fatalError)
      ensures DecodesAs(r, old(fatalError), BinaryFormat.ReadSmallIntOrNull(t, opt, Drop(stream, old(bufStart) + old(index)), peek8),
                        bufStart + index - (old(bufStart) + old(index)))
      ensures r.Err? ==> index == old(index)
      ensures !hasScanner ==> peek8
    {
      ghost var pos := bufStart + index;
      ghost var s0 := Drop(stream, pos);
      var v, c;
      v, c, peek8 := DecodeIntOrNull(Int32, index, pos);
      ghost var moved := bufStart + c - pos;
      r := NarrowSmall(t, v);
      if r.Ok? {
        index := c;
      }
      SmallIntOrNullOutcome(t, opt, s0, peek8, old(fatalError), v, moved, bufStart + index - pos, r);
    }

    // The part of ReadSmallIntOrNull after the int is decoded: the range
    // check against TShort, then the narrowing.
    method NarrowSmall(t: IntType, v: Result<Option<int>, ReadError>) returns (r: Result<Option<int>, ReadError>)
      modifies this`fatalError
      ensures fatalError == old(fatalError)
      ensures v.Err? ==> r == Err(v.error)
      ensures v.Ok? && v.value.None? ==> r == Ok(None)
      ensures v.Ok? && v.value.Some? ==>
        r == if !opt.silentlyTruncateLargeNumbers && !InRange(t, v.value.value) then Err(Latched(old(fatalError), NumberTooLarge(t)))
             else Ok(Some(Cast(t, v.value.value)))
    {
      if v.Err? {
        return Err(v.error);
      }
      if v.value.Some? {
        var err := MaybeThrowIntegerOverflowIf(!InRange(t, v.value.value), t);
        if err.Some? {
          return Err(err.value);
        }
        r := Ok(Some(Cast(t, v.value.value)));
      } else {
        r := Ok(None);
      }
    }

    // ReadSmallInt<TShort>: as ReadSmallIntOrNull, with a null handled as
    // in ReadNormalInt.
    method ReadSmallInt(t: IntType) returns (r: Result<int, ReadError>, ghost peek8: bool)
      requires Valid() && (t.SByte? || t.Byte8? || t.Int16? || t.UInt16?)
      modifies this`buf, this`bufStart, this`objectStartIndex, this`fatalError, this`index
      ensures Valid() && fatalError == old(fatalError)
      ensures ReadsAs(r, old(fatalError), BinaryFormat.ReadSmallInt(t, opt, Drop(stream, old(bufStart) + old(index)), peek8),
                      bufStart + index - (old(bufStart) + old(index)))
      ensures BinaryFormat.ReadSmallIntOrNull(t, opt, Drop(stream, old(bufStart) + old(index)), peek8).Err? ==> index == old(index)
      ensures !hasScanner ==> peek8
    {
      ghost var pos := bufStart + index;
      var v;
      v, peek8 := ReadSmallIntOrNull(t);
      if v.Err? {
        SmallIntOutcome(t, opt, Drop(stream, old(bufStart) + old(index)), peek8, old(fatalError), v, bufStart + index - pos,
          bufStart + index - (old(bufStart) + old(index)), Err(v.error));
        return Err(v.error), peek8;
      }
      if v.value.Some? {
        r := Ok(v.value.value);
      } else {
        r := UnexpectedNull(false);
      }
      SmallIntOutcome(t, opt, Drop(stream, old(bufStart) + old(index)), peek8, old(fatalError), v, bufStart + index - pos,
          bufStart + index - (old(bufStart) + old(index)), r);
    }

    // DecodeIntOrNull<TInt>: one number or null from the cursor on, at
    // stream position pos. The cursor does not move past a null.
    method DecodeIntOrNull(t: IntType, cur: nat, ghost pos: nat)
      returns (r: Result<Option<int>, ReadError>, newCur: nat, ghost peek8: bool)
      requires Valid() && IsNormal(t) && pos == bufStart + cur
      modifies this`buf, this`bufStart, this`objectStartIndex, this`fatalError
      ensures Valid() && fatalError == old(fatalError)
      ensures DecodesAs(r, old(fatalError), DecodeIntOrNullWith(t, opt, Drop(stream, pos), peek8), bufStart + newCur - pos)
      ensures pos < |stream| && stream[pos] < 0xFE && r.Ok? ==> newCur <= |buf|
      ensures !hasScanner ==> peek8 && bufStart == old(bufStart)
      decreases |Drop(stream, pos)|, 2
    {
      var c, err := ExpectBytes(cur, 1);
      if err.Some? {
        IntEof(t, opt, stream, pos, true, old(fatalError), Err(err.value), bufStart + c - pos);
        return Err(err.value), c, true;
      }
      var firstByte := buf[c];
      assert firstByte == stream[pos];
      if firstByte < 0xFE {
        c := c + 1;
        if firstByte < 0x80 {
          IntSmall(t, opt, stream, pos, true, old(fatalError), Ok(Some(SmallValue(t, firstByte))), bufStart + c - pos);
          return Ok(Some(SmallValue(t, firstByte))), c, true;
        }
        r, newCur := ReadMultiByte(t, firstByte, c, pos);
        IntMulti(t, opt, stream, pos, true, old(fatalError), r, bufStart + newCur - pos);
        return r, newCur, true;
      } else if firstByte == 0xFF {
        IntNull(t, opt, stream, pos, true, old(fatalError), Ok(None), bufStart + c - pos);
        return Ok(None), c, true;
      } else {
        var v;
        v, newCur, peek8 := DecodeLargeFormatInt64(IsSigned(t), c, pos);
        r := if v.Err? then Err(v.error) else Ok(Some(Cast(t, v.value)));
        IntLarge(t, opt, stream, pos, peek8, old(fatalError), v, r, bufStart + newCur - pos);
      }
    }

    // The small format after its tag at stream position pos: TagLength(tag)
    // further bytes below the tag's payload bits, with the overflow check for
    // 32-bit targets.
    method ReadMultiByte(t: IntType, tag: Byte, cur: nat, ghost pos: nat) returns (r: Result<Option<int>, ReadError>, newCur: nat)
      requires Valid() && IsNormal(t) && 0x80 <= tag < 0xFE
      requires 1 <= cur <= |buf| && buf[cur - 1] == tag && pos + 1 == bufStart + cur
      modifies this`buf, this`bufStart, this`objectStartIndex, this`fatalError
      ensures Valid() && fatalError == old(fatalError)
      ensures DecodesAs(r, old(fatalError), BinaryFormat.DecodeMultiByte(t, opt, Drop(stream, pos)), bufStart + newCur - pos)
      ensures r.Ok? ==> newCur <= |buf|
      ensures !hasScanner ==> bufStart == old(bufStart)
    {
      assert stream[pos] == tag;
      // LeadingOneCount(tag), which is TagLength(tag) (TagLengthIsLeadingOneCount).
      var sizeOfRest := TagLength(tag);
      var c, err := ExpectBytes(cur, sizeOfRest);
      if err.Some? {
        MultiByteEof(t, opt, Drop(stream, pos));
        return Err(err.value), c;
      }
      var low;
      low, newCur := ReadRemainingBytesAsBigEndian(buf, c, sizeOfRest);
      MultiByteFromWindow(t, opt, stream, bufStart, buf, c, pos, tag, low);
      r := MultiByteNumber(t, tag, low);
    }

    // The rest of ReadMultiByte once the further bytes are read: the number,
    // and the overflow check for 32-bit targets.
    method MultiByteNumber(t: IntType, tag: Byte, low: nat) returns (r: Result<Option<int>, ReadError>)
      requires IsNormal(t) && 0x80 <= tag < 0xFE
      modifies this`fatalError
      ensures fatalError == old(fatalError)
      ensures DecodesAs(r, old(fatalError), MultiByteValue(t, opt, tag, low), 1 + TagLength(tag))
    {
      var number := HighBits(IsSigned(t), tag, TagLength(tag)) + low;
      if t.Int32? || t.UInt32? {
        var err := MaybeThrowIntegerOverflowIf(!InRange(t, number), t);
        if err.Some? {
          return Err(err.value);
        }
      }
      return Ok(Some(Cast(t, number)));
    }

    // DecodeLargeFormatInt64: the 0xFE tag at stream position pos and the
    // first byte of its length prefix, which must not be a tag of its own.
    method DecodeLargeFormatInt64(signed: bool, cur: nat, ghost pos: nat)
      returns (r: Result<int, ReadError>, newCur: nat, ghost peek8: bool)
      requires Valid() && cur < |buf| && buf[cur] == 0xFE && pos == bufStart + cur
      modifies this`buf, this`bufStart, this`objectStartIndex, this`fatalError
      ensures Valid() && fatalError == old(fatalError)
      ensures pos < |stream| && stream[pos] == 0xFE
      ensures ReadsAs(r, old(fatalError), BinaryFormat.DecodeLargeFormatInt64(signed, opt, Drop(stream, pos), peek8),
                      bufStart + newCur - pos)
      ensures !hasScanner ==> peek8 && bufStart == old(bufStart)
      decreases |Drop(stream, pos)|, 1
    {
      assert stream[pos] == 0xFE;
      var c := cur + 1;
      var ok;
      c, ok := AutoRead(c, 2);
      if !ok {
        var e := NewError(UnexpectedEof, false);
        LargeEof(signed, opt, stream, pos, true, old(fatalError), Err(e), bufStart + c - pos);
        return Err(e), c, true;
      }
      var b := buf[c];
      assert b == stream[pos + 1];
      if b >= 0xFE {
        var e := NewError(if b == 0xFF then NumberLengthIsNull else LengthPrefixIsLengthPrefixed, false);
        LargeBadPrefix(signed, opt, stream, pos, true, old(fatalError), Err(e), bufStart + c - pos);
        return Err(e), c, true;
      }
      r, newCur, peek8 := ReadLengthPrefixed(signed, c, pos);
    }

    // The length prefix of a large-format number whose tag is at stream
    // position pos, its checks, and then the number (ReadLargeBody).
    method ReadLengthPrefixed(signed: bool, cur: nat, ghost pos: nat)
      returns (r: Result<int, ReadError>, newCur: nat, ghost peek8: bool)
      requires Valid() && cur + 2 <= |buf| && buf[cur] < 0xFE && pos + 1 == bufStart + cur
      requires pos < |stream| && stream[pos] == 0xFE
      modifies this`buf, this`bufStart, this`objectStartIndex, this`fatalError
      ensures Valid() && fatalError == old(fatalError)
      ensures ReadsAs(r, old(fatalError), BinaryFormat.DecodeLargeFormatInt64(signed, opt, Drop(stream, pos), peek8),
                      bufStart + newCur - pos)
      ensures !hasScanner ==> peek8 && bufStart == old(bufStart)
      decreases |Drop(stream, pos)|, 0
    {
      assert buf[cur] == stream[pos + 1];
      var len, c;
      ghost var lenPeek8;
      len, c, lenPeek8 := DecodeIntOrNull(UInt32, cur, pos + 1);
      ghost var m: int := bufStart + c - (pos + 1);
      assert PrefixRead(opt, stream, pos, old(fatalError), len, lenPeek8, m);
      if len.Err? {
        LargePrefixErr(signed, opt, stream, pos, true, old(fatalError), len, lenPeek8, m, Err(len.error), bufStart + c - pos);
        return Err(len.error), c, true;
      }
      PrefixIsValue(opt, stream, pos, old(fatalError), len, lenPeek8, m);
      var integerSize := Cast(Int32, len.value.value);
      if integerSize > opt.maxNumberSize || integerSize < 0 {
        var e := NewError(if integerSize > opt.maxNumberSize then LengthPrefixTooLarge else NegativeLengthPrefix, false);
        LargeSizeErr(signed, opt, stream, pos, true, old(fatalError), len.value.value, m, Err(e), bufStart + c - pos);
        return Err(e), c, true;
      }
      r, newCur, peek8 := ReadLargeBody(signed, c, integerSize, pos + 1 + m);
      LargeDone(signed, opt, stream, pos, peek8, old(fatalError), len.value.value, m, integerSize, r,
                bufStart + newCur - (pos + 1 + m), bufStart + newCur - pos);
    }

    // The integerSize bytes of a large-format number at stream position pos
    // (see LargeBody).
    method ReadLargeBody(signed: bool, cur: nat, integerSize: nat, ghost pos: nat)
      returns (r: Result<int, ReadError>, newCur: nat, ghost peek8: bool)
      requires Valid() && cur <= |buf| && pos == bufStart + cur
      modifies this`buf, this`bufStart, this`objectStartIndex, this`fatalError
      ensures Valid() && fatalError == old(fatalError)
      ensures ReadsAs(r, old(fatalError), LargeBody(signed, opt, Drop(stream, pos), integerSize, peek8), bufStart + newCur - pos)
      ensures !hasScanner ==> peek8 && bufStart == old(bufStart)
    {
      var c, err := ExpectBytes(cur, integerSize);
      if err.Some? {
        BodyEof(signed, opt, stream, pos, integerSize, true, old(fatalError), Err(err.value), bufStart + c - pos);
        return Err(err.value), c, true;
      }
      if integerSize > 8 && !opt.silentlyTruncateLargeNumbers {
        err := ExpectZeroes(buf[c..c + integerSize - 8]);
        if err.Some? {
          BodyNotZero(signed, opt, stream, bufStart, buf, c, pos, integerSize, true, old(fatalError),
                      Err(err.value), bufStart + c - pos);
          return Err(err.value), c, true;
        }
      }
      r, newCur, peek8 := ReadLargeLow(signed, c, integerSize, pos);
    }

    // The last (at most 8) bytes of a large-format number whose integerSize
    // bytes are loaded from cursor cur, at stream position pos, on.
    method ReadLargeLow(signed: bool, cur: nat, integerSize: nat, ghost pos: nat)
      returns (r: Result<int, ReadError>, newCur: nat, ghost peek8: bool)
      requires Valid() && cur + integerSize <= |buf| && pos == bufStart + cur
      requires integerSize > 8 && !opt.silentlyTruncateLargeNumbers ==> AllZero(buf[cur..cur + integerSize - 8])
      ensures ReadsAs(r, old(fatalError), LargeBody(signed, opt, Drop(stream, pos), integerSize, peek8), bufStart + newCur - pos)
      ensures !hasScanner ==> peek8
    {
      var c, size := cur, integerSize;
      if integerSize > 8 {
        c := c + (integerSize - 8);
        size := 8;
      }
      peek8 := !hasScanner || |buf| - c >= 8;
      var raw, c2 := ReadRemainingBytesAsBigEndian(buf, c, size);
      var number := Cast(Int64, raw);
      var value := if signed then SignExtendBytes(number, size) else number;
      BodyDone(signed, opt, stream, bufStart, buf, cur, c, pos, integerSize, !hasScanner, peek8, old(fatalError),
               size, raw, Ok(value), bufStart + c2 + size - pos);
      return Ok(value), c2 + size, peek8;
    }
  }
}
