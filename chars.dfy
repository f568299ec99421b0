// Characters as the C# sources see them: a `char` is a UTF-16 code unit,
// any value below 0x10000 (unpaired surrogates included), which Dafny's own
// `char` cannot hold.
module Chars {
  type Char16 = x: int | 0 <= x < 0x1_0000

  // A Dafny string literal as code units; characters above U+FFFF, which
  // the literals here do not use, become 0.
  function Units(s: string): (r: seq<Char16>)
    ensures |r| == |s|
    ensures forall i :: 0 <= i < |s| && (s[i] as int) < 0x1_0000 ==> r[i] == s[i] as int
  {
    if s == [] then []
    else [if (s[0] as int) < 0x1_0000 then s[0] as int else 0] + Units(s[1..])
  }
}
