// UString: a slice (string, start, count) of a UTF-16 string that is also a
// bidirectional range of code points. The struct is a value in C#; here it
// is an object whose start and count PopFront and PopBack update in place,
// and every operation that yields a new UString yields a fresh object (a
// struct copy). The searching and comparing loops are proved against the
// functions of the first half of this module.
module UStrings {
  import opened Wrappers
  import opened Chars

  datatype UStringError = StartBelowZero | CountBelowZero | IndexOutOfRange

  // int.MaxValue, the default count and the default number of replacements.
  const IntMax: int := 0x7FFF_FFFF

  function Min(a: int, b: int): int { if a <= b then a else b }

  function Max(a: int, b: int): int { if a >= b then a else b }

  // ---------------------------------------------------------------------------
  // The range the public constructor selects.

  // UString(str, start, count) as written: when start lies past the end of
  // the string, `_start -= count` runs with a negative count and moves the
  // start further out instead of back to the end.
  function ConstructorRangeAsWritten(len: nat, start: int, count: int): (r: Result<(int, int), UStringError>)
    ensures r.Err? <==> start < 0 || count < 0
  {
    if start < 0 then Err(StartBelowZero)
    else if count < 0 then Err(CountBelowZero)
    else if count > len - start then
      (var c := len - start; if c < 0 then Ok((start - c, 0)) else Ok((start, c)))
    else Ok((start, count))
  }

  // The slice of an empty prefix of "abc" that starts at 5 ends up at 7.
  lemma StartPastEndAsWritten(len: nat, start: int, count: int)
    requires start > len && count >= 0
    ensures ConstructorRangeAsWritten(len, start, count) == Ok((2 * start - len, 0))
    ensures 2 * start - len > len
  {
  }

  // The constructor with the start moved back to the end of the string, as
  // the debug assertion `_start <= _str.Length` of Substring expects.
  function ConstructorRange(len: nat, start: int, count: int): (r: Result<(nat, nat), UStringError>)
    ensures r.Err? <==> start < 0 || count < 0
    ensures r.Err? ==> r.error == if start < 0 then StartBelowZero else CountBelowZero
    ensures r.Ok? ==> r.value.0 + r.value.1 <= len
    ensures r.Ok? && start <= len ==> r.value == (start, Min(count, len - start))
    ensures r.Ok? && start > len ==> r.value == (len, 0)
  {
    if start < 0 then Err(StartBelowZero)
    else if count < 0 then Err(CountBelowZero)
    else if count > len - start then
      (var c := len - start; if c < 0 then Ok((start + c, 0)) else Ok((start, c)))
    else Ok((start, count))
  }

  // ---------------------------------------------------------------------------
  // Code points.

  predicate IsHighSurrogate(c: int) { 0xD800 <= c < 0xDC00 }

  predicate IsLowSurrogate(c: int) { 0xDC00 <= c < 0xE000 }

  // DecodeAt as written: it decodes the code unit at the front of the slice
  // (and the one after it, or '\0' when there is none), whatever index it is
  // given. A surrogate pair gives 0x10000 + (high << 10) + low; a lone
  // surrogate gives its bitwise complement.
  function DecodeFront(s: seq<Char16>): (c: int)
    requires |s| > 0
    ensures 0 <= c < 0x1_0000 <==> !(0xD800 <= s[0] < 0xE000)
    ensures 0 <= c < 0x1_0000 ==> c == s[0]
    ensures c < 0 ==> c == -(s[0] as int) - 1
    ensures c >= 0x1_0000 <==> |s| >= 2 && IsHighSurrogate(s[0]) && IsLowSurrogate(s[1])
    ensures c >= 0x1_0000 ==> c == 0x1_0000 + (s[0] as int) * 1024 + (s[1] as int)
  {
    var c: int := s[0];
    if c < 0xD800 || c >= 0xE000 then c
    else if c < 0xDC00 && |s| >= 2 && IsLowSurrogate(s[1]) then 0x1_0000 + c * 1024 + s[1]
    else -c - 1
  }

  // As written, the pair formula keeps the surrogate bits of both units, so
  // U+1F600 (D83D DE00) decodes to 0x362D200 and Find(U+1F600) walks past
  // the pair to the end without finding it.
  lemma SurrogatePairAsWritten()
    ensures DecodeFront([0xD83D, 0xDE00]) == 0x362_D200
    ensures DecodeFront([0xD83D, 0xDE00]) != 0x1_F600
    ensures WalkFind([0xD83D, 0xDE00], 0x1_F600) == 2
  {
    var s: seq<Char16> := [0xD83D, 0xDE00];
    assert s[2..] == [];
    assert WalkFind(s[2..], 0x1_F600) == 0;
  }

  // The UTF-16 code point a pair stands for: the high surrogate's low ten
  // bits above the low surrogate's.
  function PairCodePoint(hi: int, lo: int): (c: int)
    requires IsHighSurrogate(hi) && IsLowSurrogate(lo)
    ensures 0x1_0000 <= c <= 0x10_FFFF
  {
    0x1_0000 + (hi - 0xD800) * 1024 + (lo - 0xDC00)
  }

  // DecodeAt as the documentation promises: the code point at the front,
  // or the complement of a unit that does not start a code point.
  function DecodeFrontIntended(s: seq<Char16>): (c: int)
    requires |s| > 0
    ensures 0 <= c < 0x1_0000 <==> !(0xD800 <= s[0] < 0xE000)
    ensures 0 <= c < 0x1_0000 ==> c == s[0]
    ensures c < 0 ==> c == -(s[0] as int) - 1
    ensures c >= 0x1_0000 <==> |s| >= 2 && IsHighSurrogate(s[0]) && IsLowSurrogate(s[1])
    ensures c <= 0x10_FFFF
    ensures Width(c) == Width(DecodeFront(s))
  {
    var c: int := s[0];
    if c < 0xD800 || c >= 0xE000 then c
    else if c < 0xDC00 && |s| >= 2 && IsLowSurrogate(s[1]) then PairCodePoint(c, s[1])
    else -c - 1
  }

  // The UTF-16 encoding of a code point above U+FFFF.
  function SurrogatePair(c: int): (r: seq<Char16>)
    requires 0x1_0000 <= c <= 0x10_FFFF
    ensures |r| == 2 && IsHighSurrogate(r[0]) && IsLowSurrogate(r[1])
  {
    [0xD800 + (c - 0x1_0000) / 1024, 0xDC00 + (c - 0x1_0000) % 1024]
  }

  // The intended decoder reads back every supplementary code point from its
  // pair, whatever follows the pair.
  lemma DecodePairIntended(c: int, rest: seq<Char16>)
    requires 0x1_0000 <= c <= 0x10_FFFF
    ensures DecodeFrontIntended(SurrogatePair(c) + rest) == c
  {
    var p := SurrogatePair(c);
    assert (p + rest)[0] == p[0] && (p + rest)[1] == p[1];
    var d := c - 0x1_0000;
    assert d == (d / 1024) * 1024 + d % 1024;
  }

  // The number of code units PopFront and PopBack remove for code point c.
  function Width(c: int): (w: nat)
    ensures 1 <= w <= 2
  {
    if c >= 0x1_0000 then 2 else 1
  }

  lemma WidthFits(s: seq<Char16>)
    requires |s| > 0
    ensures Width(DecodeFront(s)) <= |s|
  {
  }

  // The position where Find(uchar) stops for a code point above 0xFFFF: it
  // pops code points off the front until one equals what or none is left.
  function WalkFind(s: seq<Char16>, what: int): (i: nat)
    ensures i <= |s|
    ensures i < |s| ==> DecodeFront(s[i..]) == what
    decreases |s|
  {
    if |s| == 0 then 0
    else if DecodeFront(s) == what then 0
    else
      var w := Width(DecodeFront(s));
      var i := WalkFind(s[w..], what);
      assert i < |s[w..]| ==> s[w..][i..] == s[w + i..];
      w + i
  }

  // ---------------------------------------------------------------------------
  // Searching and replacing, on positions within a string.

  // w occurs in s at position i without running past stop.
  predicate OccursAt(s: seq<Char16>, w: seq<Char16>, i: int, stop: int)
  {
    0 <= i && i + |w| <= stop <= |s| && s[i..i + |w|] == w
  }

  // The first position from `from` on where w occurs in s[..stop], or stop.
  // Find(w) on the slice s[from..stop] starts its result there.
  function Search(s: seq<Char16>, w: seq<Char16>, from: nat, stop: nat): (r: nat)
    requires from <= stop <= |s|
    ensures from <= r <= stop
    ensures r < stop ==> r + |w| <= stop
    decreases stop - from
  {
    if from + |w| > stop then stop
    else if s[from..from + |w|] == w then from
    else Search(s, w, from + 1, stop)
  }

  // Search stops at an occurrence ...
  lemma {:induction false} SearchFound(s: seq<Char16>, w: seq<Char16>, from: nat, stop: nat)
    requires from <= stop <= |s|
    ensures Search(s, w, from, stop) < stop ==> OccursAt(s, w, Search(s, w, from, stop), stop)
    decreases stop - from
  {
    if from + |w| <= stop && s[from..from + |w|] != w {
      SearchFound(s, w, from + 1, stop);
    }
  }

  // ... and passes over none.
  lemma {:induction false} SearchFirst(s: seq<Char16>, w: seq<Char16>, from: nat, stop: nat, j: nat)
    requires from <= stop <= |s| && from <= j < Search(s, w, from, stop)
    ensures !OccursAt(s, w, j, stop)
    decreases stop - from
  {
    if j > from {
      SearchFirst(s, w, from + 1, stop, j);
    }
  }

  // The least occurrence at or after from is where Search stops ...
  lemma {:induction false} SearchIs(s: seq<Char16>, w: seq<Char16>, from: nat, stop: nat, i: nat)
    requires from <= i && OccursAt(s, w, i, stop)
    requires forall j :: from <= j < i ==> !OccursAt(s, w, j, stop)
    ensures Search(s, w, from, stop) == i
    decreases i - from
  {
    if from < i {
      assert !OccursAt(s, w, from, stop);
      SearchIs(s, w, from + 1, stop, i);
    }
  }

  // ... and with no occurrence Search reaches stop.
  lemma {:induction false} SearchNone(s: seq<Char16>, w: seq<Char16>, from: nat, stop: nat)
    requires from <= stop <= |s|
    requires forall j :: from <= j < stop ==> !OccursAt(s, w, j, stop)
    ensures Search(s, w, from, stop) == stop
    decreases stop - from
  {
    if from < stop {
      assert !OccursAt(s, w, from, stop);
      SearchNone(s, w, from + 1, stop);
    }
  }

  // The text Replace(w, p, k) produces from s[from..stop] for k > 0: up to k
  // occurrences of w, found left to right without overlapping, each replaced
  // by p.
  function ReplacedIn(s: seq<Char16>, w: seq<Char16>, p: seq<Char16>, from: nat, stop: nat, k: nat): seq<Char16>
    requires from <= stop <= |s|
    decreases k
  {
    if k == 0 || Search(s, w, from, stop) == stop then s[from..stop]
    else
      s[from..Search(s, w, from, stop)] + p + ReplacedIn(s, w, p, Search(s, w, from, stop) + |w|, stop, k - 1)
  }

  // When w does not occur, Replace leaves the text as it is.
  lemma ReplacedNothingFound(s: seq<Char16>, w: seq<Char16>, p: seq<Char16>, from: nat, stop: nat, k: nat)
    requires from <= stop <= |s|
    requires forall j :: from <= j < stop ==> !OccursAt(s, w, j, stop)
    ensures ReplacedIn(s, w, p, from, stop, k) == s[from..stop]
  {
    SearchNone(s, w, from, stop);
  }

  // ReplaceOne replaces the first occurrence and nothing else.
  lemma ReplacedOnce(s: seq<Char16>, w: seq<Char16>, p: seq<Char16>, from: nat, stop: nat, i: nat)
    requires from <= i < stop && OccursAt(s, w, i, stop)
    requires forall j :: from <= j < i ==> !OccursAt(s, w, j, stop)
    ensures ReplacedIn(s, w, p, from, stop, 1) == s[from..i] + p + s[i + |w|..stop]
  {
    SearchIs(s, w, from, stop, i);
  }

  // Cutting an occurrence of w out of s[from..stop] and putting w back
  // changes nothing.
  lemma Splice(s: seq<Char16>, w: seq<Char16>, from: nat, i: nat, stop: nat)
    requires from <= i && OccursAt(s, w, i, stop)
    ensures s[from..i] + w + s[i + |w|..stop] == s[from..stop]
  {
    assert s[from..stop] == s[from..i] + s[i..i + |w|] + s[i + |w|..stop];
  }

  // Replacing a non-empty w by itself gives back the text.
  lemma {:induction false} ReplacedBySelf(s: seq<Char16>, w: seq<Char16>, from: nat, stop: nat, k: nat)
    requires from <= stop <= |s| && |w| > 0
    ensures ReplacedIn(s, w, w, from, stop, k) == s[from..stop]
    decreases k
  {
    if k > 0 && Search(s, w, from, stop) < stop {
      SearchFound(s, w, from, stop);
      ReplacedBySelf(s, w, Search(s, w, from, stop) + |w|, stop, k - 1);
      Splice(s, w, from, Search(s, w, from, stop), stop);
    }
  }

  // ---------------------------------------------------------------------------
  // The steps of the loop in Replace.

  // No further match after position a: the loop appends the rest as it is.
  lemma ReplaceStop(s: seq<Char16>, w: seq<Char16>, p: seq<Char16>, a: nat, b: nat, stop: nat, k: nat, sb: seq<Char16>, target: seq<Char16>)
    requires a <= stop <= |s| && k > 0
    requires b == Search(s, w, a, stop) && b == stop
    requires sb + ReplacedIn(s, w, p, a, stop, k) == target
    ensures sb + s[a..b] == target
  {
  }

  // A further match at b: the loop appends the text before it and the
  // replacement, and goes on after the match with one replacement less.
  lemma ReplaceStep(s: seq<Char16>, w: seq<Char16>, p: seq<Char16>, a: nat, b: nat, stop: nat, k: nat,
                    next: nat, k1: nat, sb: seq<Char16>, sb': seq<Char16>, target: seq<Char16>)
    requires a <= stop <= |s| && k > 0
    requires b == Search(s, w, a, stop) && b < stop
    requires sb + ReplacedIn(s, w, p, a, stop, k) == target
    requires next == b + |w| && k1 == k - 1 && sb' == sb + s[a..b] + p
    ensures next <= stop
    ensures sb' + ReplacedIn(s, w, p, next, stop, k1) == target
  {
    var rest := ReplacedIn(s, w, p, next, stop, k1);
    assert ReplacedIn(s, w, p, a, stop, k) == s[a..b] + p + rest;
    assert sb' + rest == sb + (s[a..b] + p + rest);
  }

  // The last round: no replacement is left, and the loop appends the rest.
  lemma ReplaceLast(s: seq<Char16>, w: seq<Char16>, p: seq<Char16>, a: nat, stop: nat, sb: seq<Char16>, target: seq<Char16>)
    requires a <= stop <= |s|
    requires sb + ReplacedIn(s, w, p, a, stop, 0) == target
    ensures sb + s[a..stop] == target
  {
  }

  // A slice of a slice is a slice of the string.
  lemma SliceOfSlice(s: seq<Char16>, a: nat, b: nat, m: nat, n: nat)
    requires a <= b <= |s| && m <= b - a && n <= b - a - m
    ensures s[a..b][m..][..n] == s[a + m..a + m + n]
  {
    assert forall i :: 0 <= i < n ==> s[a..b][m..][..n][i] == s[a + m + i];
  }

  // ---------------------------------------------------------------------------
  // The object.

  class UString {
    const str: seq<Char16>
    var start: int
    var count: int

    ghost predicate Valid()
      reads this
    {
      0 <= start && 0 <= count && start + count <= |str|
    }

    // The code units this UString spans.
    function Contents(): (s: seq<Char16>)
      reads this
      requires Valid()
      ensures |s| == count
    {
      str[start..start + count]
    }

    // InternalStop: the index in the string just past the slice's last code
    // unit; for a valid slice, the code units from the start to it are the
    // slice's.
    function InternalStop(): (stop: int)
      reads this
      ensures stop - start == count
      ensures Valid() ==> start <= stop <= |str| && str[start..stop] == Contents()
    {
      start + count
    }

    // The private constructor, which checks only in debug builds.
    constructor Raw(s: seq<Char16>, start: int, count: int)
      requires 0 <= start && 0 <= count && start + count <= |s|
      ensures Valid() && str == s && this.start == start && this.count == count
    {
      str := s;
      this.start := start;
      this.count := count;
    }

    // UString(string), also the implicit conversion from string.
    constructor FromString(s: seq<Char16>)
      ensures Valid() && str == s && start == 0 && Contents() == s
    {
      str := s;
      start := 0;
      count := |s|;
    }

    // UString(str, start, count), with the start clamped to the end of the
    // string as ConstructorRange does.
    static method New(s: seq<Char16>, start: int, count: int) returns (r: Result<UString, UStringError>)
      ensures r.Err? <==> start < 0 || count < 0
      ensures r.Err? ==> r.error == if start < 0 then StartBelowZero else CountBelowZero
      ensures r.Ok? ==> fresh(r.value) && r.value.Valid() && r.value.str == s
      ensures r.Ok? ==> (r.value.start, r.value.count) == ConstructorRange(|s|, start, count).value
      ensures r.Ok? ==> r.value.Contents() == if start <= |s| then s[start..][..Min(count, |s| - start)] else []
    {
      var range := ConstructorRange(|s|, start, count);
      if range.Err? {
        return Err(range.error);
      }
      var u := new UString.Raw(s, range.value.0, range.value.1);
      return Ok(u);
    }

    // Clone: a copy of the struct.
    method Copy() returns (r: UString)
      requires Valid()
      ensures fresh(r) && r.Valid() && r.str == str && r.start == start && r.count == count
    {
      r := new UString.Raw(str, start, count);
    }

    // this[index]
    function At(index: int): (r: Result<Char16, UStringError>)
      reads this
      requires Valid()
      ensures r.Ok? <==> 0 <= index < count
      ensures r.Ok? ==> r.value == Contents()[index]
      ensures r.Err? ==> r.error == IndexOutOfRange
    {
      if 0 <= index < count then Ok(str[start + index]) else Err(IndexOutOfRange)
    }

    // this[index, defaultValue], both overloads.
    function AtOr(index: int, defaultValue: int): (r: int)
      reads this
      requires Valid()
      ensures 0 <= index < count ==> r == Contents()[index]
      ensures !(0 <= index < count) ==> r == defaultValue
    {
      if 0 <= index < count then str[start + index] else defaultValue
    }

    // TryGet(index, out fail): None stands for fail = true.
    function TryGet(index: int): (r: Option<Char16>)
      reads this
      requires Valid()
      ensures r.Some? <==> At(index).Ok?
      ensures r.Some? ==> r.value == At(index).value
    {
      if 0 <= index < count then Some(str[start + index]) else None
    }

    // DecodeAt(index), as written: it fails exactly when the slice is empty
    // and otherwise decodes the front, for every index.
    function DecodeAt(index: int): (r: Result<int, UStringError>)
      reads this
      requires Valid()
      ensures r.Err? <==> count == 0
      ensures r.Ok? ==> r.value == DecodeFront(Contents())
    {
      if count == 0 then Err(IndexOutOfRange) else Ok(DecodeFront(str[start..start + count]))
    }

    function Front(): (r: Result<int, UStringError>)
      reads this
      requires Valid()
      ensures r.Err? <==> count == 0
    {
      DecodeAt(0)
    }

    // Back, as written: DecodeAt(count - 1), falling back on DecodeAt(count - 2)
    // when that is not a code point. Both decode the front, so the fallback
    // never changes the result and Back is Front.
    function Back(): (r: Result<int, UStringError>)
      reads this
      requires Valid()
      ensures r == Front()
    {
      DecodeAt(count - 1)
    }

    method PopFront() returns (c: int, fail: bool)
      requires Valid()
      modifies this
      ensures Valid()
      ensures fail <==> old(count) == 0
      ensures fail ==> c == 0 && start == old(start) && count == old(count)
      ensures !fail ==> c == DecodeFront(old(Contents()))
      ensures !fail ==> start == old(start) + Width(c) && count == old(count) - Width(c)
      ensures !fail ==> Contents() == old(Contents())[Width(c)..]
    {
      if count != 0 {
        fail := false;
        c := Front().value;
        WidthFits(Contents());
        var inc := if c >= 0x1_0000 then 2 else 1;
        count := count - inc;
        start := start + inc;
        return;
      }
      fail := true;
      c := 0;
    }

    // PopBack, as written: it removes as many code units from the back as
    // the front code point has.
    method PopBack() returns (c: int, fail: bool)
      requires Valid()
      modifies this
      ensures Valid()
      ensures fail <==> old(count) == 0
      ensures fail ==> c == 0 && start == old(start) && count == old(count)
      ensures !fail ==> c == DecodeFront(old(Contents()))
      ensures !fail ==> start == old(start) && count == old(count) - Width(c)
      ensures !fail ==> Contents() == old(Contents())[..old(count) - Width(c)]
    {
      if count != 0 {
        fail := false;
        c := Back().value;
        WidthFits(Contents());
        count := count - (if c >= 0x1_0000 then 2 else 1);
        return;
      }
      fail := true;
      c := 0;
    }

    // Equals(UString): the same code units, wherever the two slices lie.
    method Equals(other: UString) returns (r: bool)
      requires Valid() && other.Valid()
      ensures r <==> Contents() == other.Contents()
    {
      if other.count != count {
        return false;
      }
      var i, j, e := start, other.start, start + count;
      while i < e
        invariant start <= i <= e && j == other.start + (i - start)
        invariant forall k :: 0 <= k < i - start ==> Contents()[k] == other.Contents()[k]
      {
        if str[i] != other.str[j] {
          assert Contents()[i - start] != other.Contents()[i - start];
          return false;
        }
        i, j := i + 1, j + 1;
      }
      return true;
    }

    // StartsWith(what), case-sensitive.
    method StartsWith(what: UString) returns (r: bool)
      requires Valid() && what.Valid()
      ensures r <==> what.Contents() <= Contents()
    {
      if what.count > count {
        return false;
      }
      var i := 0;
      while i < what.count
        invariant 0 <= i <= what.count
        invariant forall k :: 0 <= k < i ==> Contents()[k] == what.Contents()[k]
      {
        if At(i).value != what.At(i).value {
          return false;
        }
        i := i + 1;
      }
      return true;
    }

    // EqualsAt(i, what): what occurs in the string at position i.
    method EqualsAt(i: int, what: UString) returns (r: bool)
      requires Valid() && what.Valid()
      requires 0 <= i && i + what.count <= |str|
      ensures r <==> str[i..i + what.count] == what.Contents()
    {
      var w := 0;
      while w < what.count
        invariant 0 <= w <= what.count
        invariant forall k :: 0 <= k < w ==> str[i + k] == what.Contents()[k]
      {
        if str[i + w] != what.At(w).value {
          assert str[i..i + what.count][w] != what.Contents()[w];
          return false;
        }
        w := w + 1;
      }
      return true;
    }

    // Find(char), case-sensitive: string.IndexOf within the slice.
    method FindChar(c: Char16) returns (r: UString)
      requires Valid()
      ensures fresh(r) && r.Valid() && r.str == str
      ensures r.start == Search(str, [c], start, InternalStop())
      ensures r.InternalStop() == InternalStop()
    {
      ghost var stop := InternalStop();
      var i := start;
      while i < start + count
        invariant start <= i <= stop
        invariant forall j :: start <= j < i ==> !OccursAt(str, [c], j, stop)
      {
        assert str[i..i + 1] == [str[i]];
        if str[i] == c {
          SearchIs(str, [c], start, stop, i);
          r := new UString.Raw(str, i, InternalStop() - i);
          return;
        }
        i := i + 1;
      }
      SearchNone(str, [c], start, stop);
      r := new UString.Raw(str, InternalStop(), 0);
    }

    // Find(uchar), case-sensitive. A value of at most 0xFFFF is cast to char
    // (negative values wrap around); a larger one is looked for by popping
    // code points off a copy.
    method FindUChar(what: int) returns (r: UString)
      requires Valid()
      ensures fresh(r) && r.Valid() && r.str == str
      ensures what <= 0xFFFF ==> r.start == Search(str, [what % 0x1_0000], start, InternalStop())
      ensures what > 0xFFFF ==> r.start == start + WalkFind(Contents(), what)
      ensures r.InternalStop() == InternalStop()
    {
      if what <= 0xFFFF {
        r := FindChar(what % 0x1_0000);
      } else {
        r := FindCodePoint(what);
      }
    }

    // The loop of Find(uchar) for a code point above 0xFFFF.
    method FindCodePoint(what: int) returns (r: UString)
      requires Valid() && what > 0xFFFF
      ensures fresh(r) && r.Valid() && r.str == str
      ensures r.start == start + WalkFind(Contents(), what)
      ensures r.InternalStop() == InternalStop()
    {
      ghost var s0, stop := Contents(), InternalStop();
      var sub := Copy();
      assert sub.Contents() == s0;
      while true
        invariant fresh(sub) && sub.Valid() && sub.str == str && sub.InternalStop() == stop
        invariant start + WalkFind(s0, what) == sub.start + WalkFind(sub.Contents(), what)
        decreases sub.count
      {
        var was := sub.Copy();
        ghost var before := sub.Contents();
        var f, fail := sub.PopFront();
        if fail || what == f {
          return was;
        }
        assert WalkFind(before, what) == Width(f) + WalkFind(before[Width(f)..], what);
      }
    }

    // Find(what), case-sensitive: the rest of the slice from the first
    // occurrence of what, or an empty slice at the end.
    method Find(what: UString) returns (r: UString)
      requires Valid() && what.Valid()
      ensures fresh(r) && r.Valid() && r.str == str
      ensures r.start == Search(str, what.Contents(), start, InternalStop())
      ensures r.InternalStop() == InternalStop()
    {
      if what.count <= 1 {
        if what.count == 0 {
          assert what.Contents() == [];
          r := Copy();
          return;
        }
        assert what.Contents() == [what.At(0).value];
        r := FindUChar(what.At(0).value);
        return;
      }
      r := FindLong(what);
    }

    // The loop of Find(what) for a what of two code units or more.
    method FindLong(what: UString) returns (r: UString)
      requires Valid() && what.Valid() && what.count >= 2
      ensures fresh(r) && r.Valid() && r.str == str
      ensures r.start == Search(str, what.Contents(), start, InternalStop())
      ensures r.InternalStop() == InternalStop()
    {
      ghost var w, stop := what.Contents(), InternalStop();
      var first := what.At(0).value;
      var i, last := start, start + count - what.count;
      while i <= last
        invariant start <= i && (i <= last + 1 || last < start)
        invariant forall j :: start <= j < i ==> !OccursAt(str, w, j, stop)
      {
        var eq := false;
        if str[i] == first {
          eq := EqualsAt(i, what);
        }
        assert eq <==> OccursAt(str, w, i, stop) by {
          assert w[0] == first;
        }
        if eq {
          SearchIs(str, w, start, stop, i);
          r := new UString.Raw(str, i, start + count - i);
          return;
        }
        i := i + 1;
      }
      SearchNone(str, w, start, stop);
      r := new UString.Raw(str, start + count, 0);
    }

    // Substring(start, count), a synonym of Slice: a negative count is 0, and
    // the result is clamped to this slice.
    method Substring(from: int, len: int) returns (r: Result<UString, UStringError>)
      requires Valid()
      ensures r.Err? <==> from < 0
      ensures r.Ok? ==> fresh(r.value) && r.value.Valid() && r.value.str == str
      ensures r.Ok? ==> start <= r.value.start && r.value.InternalStop() <= InternalStop()
      ensures r.Ok? ==> r.value.Contents() == Contents()[Min(from, count)..][..Min(Max(len, 0), count - Min(from, count))]
    {
      if from < 0 {
        return Err(StartBelowZero);
      }
      var s, c := from, len;
      if c < 0 {
        c := 0;
      }
      if s > count {
        s := count;
      }
      if c > count - s {
        c := count - s;
      }
      var u := new UString.Raw(str, start + s, c);
      SliceOfSlice(str, start, start + count, s, c);
      return Ok(u);
    }

    // Substring(start): the rest of the slice from start on.
    method SubstringFrom(from: int) returns (r: Result<UString, UStringError>)
      requires Valid()
      ensures r.Err? <==> from < 0
      ensures r.Ok? ==> fresh(r.value) && r.value.Valid() && r.value.str == str
      ensures r.Ok? ==> r.value.InternalStop() == InternalStop()
      ensures r.Ok? ==> r.value.start == start + Min(from, count)
      ensures r.Ok? ==> r.value.Contents() == Contents()[Min(from, count)..]
    {
      if from < 0 {
        return Err(StartBelowZero);
      }
      var s := from;
      if s > count {
        s := count;
      }
      var u := new UString.Raw(str, start + s, count - s);
      return Ok(u);
    }

    // Replace(what, replacement, maxReplacements), case-sensitive. When
    // nothing is replaced the result is this UString itself.
    method Replace(what: UString, replacement: UString, maxReplacements: int) returns (r: UString)
      requires Valid() && what.Valid() && replacement.Valid()
      ensures fresh(r) && r.Valid()
      ensures maxReplacements <= 0 || Search(str, what.Contents(), start, InternalStop()) == InternalStop() ==>
        r.str == str && r.start == start && r.count == count
      ensures maxReplacements > 0 ==>
        r.Contents() == ReplacedIn(str, what.Contents(), replacement.Contents(), start, InternalStop(), maxReplacements)
    {
      if maxReplacements <= 0 {
        r := Copy();
        return;
      }
      var sub := Find(what);
      if sub.count == 0 {
        r := Copy();
        return;
      }
      ghost var w, p, stop := what.Contents(), replacement.Contents(), InternalStop();
      ghost var target := ReplacedIn(str, w, p, start, stop, maxReplacements);
      var sb := str[start..sub.start] + replacement.Contents();
      assert [] + str[start..sub.start] + p == sb;
      ghost var next, left := sub.start + |w|, maxReplacements - 1;
      ReplaceStep(str, w, p, start, sub.start, stop, maxReplacements, next, left, [], sb, target);
      r := ReplaceRest(what, replacement, maxReplacements, sub, sb, w, p, stop, next, left, target);
    }

    // The loop of Replace, after the first replacement: sb holds the text
    // before the match sub starts with, and the replacement.
    method ReplaceRest(what: UString, replacement: UString, maxReplacements: int, sub0: UString, sb0: seq<Char16>,
                       ghost w: seq<Char16>, ghost p: seq<Char16>, ghost stop: nat, ghost pos0: nat, ghost left0: nat,
                       ghost target: seq<Char16>)
      returns (r: UString)
      requires Valid() && what.Valid() && replacement.Valid() && sub0.Valid()
      requires w == what.Contents() && p == replacement.Contents() && stop == InternalStop()
      requires sub0.str == str && sub0.InternalStop() == stop && pos0 == sub0.start + |w| <= stop
      requires maxReplacements >= 1 && left0 == maxReplacements - 1
      requires sb0 + ReplacedIn(str, w, p, pos0, stop, left0) == target
      ensures fresh(r) && r.Valid() && r.Contents() == target
    {
      var sub, sb := sub0, sb0;
      var self: UString := sub;
      var rep := 1;
      ghost var pos, left := pos0, left0;
      while true
        invariant sub.Valid() && sub.str == str && sub.InternalStop() == stop
        invariant pos == sub.start + |w| <= stop
        invariant 1 <= rep <= maxReplacements && left == maxReplacements - rep
        invariant sb + ReplacedIn(str, w, p, pos, stop, left) == target
        decreases left
      {
        var after := sub.SubstringFrom(what.count);
        self := after.value;
        assert self.start == pos && self.InternalStop() == stop && self.str == str;
        if rep >= maxReplacements {
          break;
        }
        ghost var next, k1;
        sub, sb, next, k1 := ReplaceNext(self, what, replacement, sb, str, w, p, stop, left, target);
        if sub.count == 0 {
          r := new UString.FromString(sb);
          return;
        }
        rep, left, pos := rep + 1, k1, next;
      }
      ReplaceLast(str, w, p, pos, stop, sb, target);
      sb := sb + self.Contents();
      r := new UString.FromString(sb);
    }

    // A round of the loop of Replace: the next match in self (the text after
    // the last match), the text before it appended to sb, and the replacement
    // appended too when there is a match. Without one, sb is the whole result.
    static method ReplaceNext(self: UString, what: UString, replacement: UString, sb0: seq<Char16>,
                              ghost s: seq<Char16>, ghost w: seq<Char16>, ghost p: seq<Char16>, ghost stop: nat,
                              ghost k: nat, ghost target: seq<Char16>)
      returns (sub: UString, sb: seq<Char16>, ghost next: nat, ghost k1: nat)
      requires self.Valid() && what.Valid() && replacement.Valid()
      requires s == self.str && stop == self.InternalStop()
      requires w == what.Contents() && p == replacement.Contents() && k > 0
      requires sb0 + ReplacedIn(s, w, p, self.start, stop, k) == target
      ensures sub.Valid() && sub.str == s && sub.InternalStop() == stop
      ensures sub.count == 0 ==> sb == target
      ensures sub.count > 0 ==> next == sub.start + |w| <= stop
      ensures sub.count > 0 ==> k1 == k - 1 && sb + ReplacedIn(s, w, p, next, stop, k1) == target
    {
      ghost var a := self.start;
      k1 := k - 1;
      sub := self.Find(what);
      ghost var b := sub.start;
      sb := sb0 + self.str[self.start..sub.start];
      assert sb == sb0 + s[a..b];
      if sub.count == 0 {
        ReplaceStop(s, w, p, a, b, stop, k, sb0, target);
        next := 0;
        return;
      }
      sb := sb + replacement.Contents();
      next := b + |w|;
      ReplaceStep(s, w, p, a, b, stop, k, next, k1, sb0, sb, target);
    }

    // ReplaceOne(what, replacement)
    method ReplaceOne(what: UString, replacement: UString) returns (r: UString)
      requires Valid() && what.Valid() && replacement.Valid()
      ensures fresh(r) && r.Valid()
      ensures r.Contents() == ReplacedIn(str, what.Contents(), replacement.Contents(), start, InternalStop(), 1)
    {
      r := Replace(what, replacement, 1);
    }
  }
}
