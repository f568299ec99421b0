// What the LES and EC# lexers share. Lookahead yields -1 past the end of the
// input. Both grammars use the same digit classes and digit-run rules. A
// cursor supplies the position and the Skip and Match primitives of the
// lexer base class.
module LexerCore {
  import opened Chars

  type Input = seq<Char16>

  // LA(k) at position p: the character k places on from p, or -1 outside the
  // input. LA(-1) is the character before p.
  function LA(s: Input, p: int, k: int): int
  {
    if 0 <= p + k < |s| then s[p + k] else -1
  }

  predicate IsNewlineChar(c: int)
  {
    c == '\n' as int || c == '\r' as int
  }

  predicate IsDecDigit(c: int)
  {
    '0' as int <= c <= '9' as int
  }

  // [+\-0-9]: what must follow an exponent letter.
  predicate IsSignOrDigit(c: int)
  {
    c == '+' as int || c == '-' as int || IsDecDigit(c)
  }

  datatype DigitClass = Dec | Hex | Bin

  // [0-9], HexDigit_set0 = [0-9A-Fa-f], and [01].
  predicate InClass(d: DigitClass, c: int)
  {
    match d
    case Dec => IsDecDigit(c)
    case Hex => IsDecDigit(c) || 'A' as int <= c <= 'F' as int || 'a' as int <= c <= 'f' as int
    case Bin => c == '0' as int || c == '1' as int
  }

  // ---- the digit rules as functions of the input

  // End of the run of class characters that starts at p.
  function Run(s: Input, p: nat, d: DigitClass): (e: nat)
    requires p <= |s|
    ensures p <= e <= |s|
    ensures forall i :: p <= i < e ==> InClass(d, s[i])
    ensures !InClass(d, LA(s, e, 0))
    decreases |s| - p
  {
    if InClass(d, LA(s, p, 0)) then Run(s, p + 1, d) else p
  }

  // The loop `([_] D (D)*)*` of DecDigits and HexDigits: a '_' is taken only
  // when a class character follows it.
  function Groups(s: Input, q: nat, d: DigitClass): (e: nat)
    requires q <= |s|
    ensures q <= e <= |s|
    decreases |s| - q
  {
    if LA(s, q, 0) == '_' as int && InClass(d, LA(s, q, 1)) then Groups(s, Run(s, q + 1, d), d) else q
  }

  // DecDigits / HexDigits started at p: where they stop, and how many Match
  // errors they report (one, when p does not hold a class character).
  function DigitsEnd(s: Input, p: nat, d: DigitClass): nat
    requires p <= |s|
  {
    Groups(s, Run(s, p, d), d)
  }

  function DigitsErrors(s: Input, p: nat, d: DigitClass): nat
  {
    if InClass(d, LA(s, p, 0)) then 0 else 1
  }

  // A digit run that starts on a class character takes at least it.
  lemma RunAdvances(s: Input, p: nat, d: DigitClass)
    requires p <= |s| && InClass(d, LA(s, p, 0))
    ensures DigitsEnd(s, p, d) > p
  {
    assert Run(s, p, d) == Run(s, p + 1, d);
  }

  // The loop `([_] [01] ([01])*)*` of BinDigits: a '_' is always taken, and
  // the Match of the binary digit after it reports an error when it fails.
  function BinGroupsEnd(s: Input, q: nat): (e: nat)
    requires q <= |s|
    ensures q <= e <= |s|
    decreases |s| - q
  {
    if LA(s, q, 0) == '_' as int then BinGroupsEnd(s, Run(s, q + 1, Bin)) else q
  }

  function BinGroupsErrors(s: Input, q: nat): nat
    requires q <= |s|
    decreases |s| - q
  {
    if LA(s, q, 0) == '_' as int then
      (if InClass(Bin, LA(s, q, 1)) then 0 else 1) + BinGroupsErrors(s, Run(s, q + 1, Bin))
    else 0
  }

  // One MatchClass and the run after it stop where the run from q does.
  lemma RunAfterMatch(s: Input, q: nat, d: DigitClass)
    requires q <= |s|
    ensures q + (1 - DigitsErrors(s, q, d)) <= |s|
    ensures Run(s, q + (1 - DigitsErrors(s, q, d)), d) == Run(s, q, d)
  {
  }

  // One pass of the loop of BinDigits, at the '_' in q.
  lemma BinGroupStep(s: Input, q: nat)
    requires q < |s| && LA(s, q, 0) == '_' as int
    ensures BinGroupsEnd(s, q) == BinGroupsEnd(s, Run(s, q + 1, Bin))
    ensures BinGroupsErrors(s, q) == DigitsErrors(s, q + 1, Bin) + BinGroupsErrors(s, Run(s, q + 1, Bin))
  {
  }

  function BinDigitsEnd(s: Input, p: nat): nat
    requires p <= |s|
  {
    BinGroupsEnd(s, Run(s, p, Bin))
  }

  function BinDigitsErrors(s: Input, p: nat): nat
    requires p <= |s|
  {
    DigitsErrors(s, p, Bin) + BinGroupsErrors(s, Run(s, p, Bin))
  }

  // Scan_HexDigits at q: it succeeds exactly when q holds a hex digit, and
  // then it stops where HexDigits would.
  predicate ScanHexDigits(s: Input, q: nat)
  {
    InClass(Hex, LA(s, q, 0))
  }

  // HexNumber_Test0 at q, the lookahead that lets a hex number take a '.':
  // a decimal digit, or hex digits followed by [Pp] and then [+\-0-9].
  predicate HexNumberTest0(s: Input, q: nat)
    requires q <= |s|
  {
    if IsDecDigit(LA(s, q, 0)) then true
    else
      ScanHexDigits(s, q)
      && var e := DigitsEnd(s, q, Hex);
      (LA(s, e, 0) == 'P' as int || LA(s, e, 0) == 'p' as int) && IsSignOrDigit(LA(s, e, 1))
  }

  // Newline at p: "\r\n", "\r" or "\n"; anything else is a Match('\n') error.
  function NewlineEnd(s: Input, p: nat): (e: nat)
    requires p <= |s|
    ensures p <= e <= |s|
  {
    if LA(s, p, 0) == '\r' as int then
      (if LA(s, p, 1) == '\n' as int then p + 2 else p + 1)
    else if LA(s, p, 0) == '\n' as int then p + 1
    else p
  }

  // `([^\$\n\r])*`: the rest of the line, up to a newline or the end.
  function LineEnd(s: Input, p: nat): (e: nat)
    requires p <= |s|
    ensures p <= e <= |s|
    ensures forall i :: p <= i < e ==> !IsNewlineChar(s[i])
    ensures LA(s, e, 0) == -1 || IsNewlineChar(LA(s, e, 0))
    decreases |s| - p
  {
    if LA(s, p, 0) == -1 || IsNewlineChar(LA(s, p, 0)) then p else LineEnd(s, p + 1)
  }

  datatype CommentScan = CommentScan(end: nat, errors: nat)

  // Match('*'); Match('/'): each advances over its character or reports an
  // error.
  function CloseAt(s: Input, q: nat): (r: CommentScan)
    requires q <= |s|
    ensures q <= r.end <= q + 2 && r.end <= |s|
  {
    var star := if LA(s, q, 0) == '*' as int then q + 1 else q;
    var slash := if LA(s, star, 0) == '/' as int then star + 1 else star;
    CommentScan(slash, (if star == q then 1 else 0) + (if slash == star then 1 else 0))
  }

  // Shebang: "#!", the rest of the line, and the newline if there is one.
  function ShebangEnd(s: Input, p: nat): nat
    requires p + 2 <= |s|
  {
    var e := LineEnd(s, p + 2);
    if IsNewlineChar(LA(s, e, 0)) then NewlineEnd(s, e) else e
  }

  // ---- what the digit rules accept, stated without the rules

  // D+ (_ D+)*: starts with a class character, and every '_' sits between
  // class characters.
  ghost predicate IsDigitGroups(t: seq<Char16>, d: DigitClass)
  {
    |t| > 0 && InClass(d, t[0])
    && forall i {:trigger t[i]} :: 0 <= i < |t| ==>
         InClass(d, t[i]) || (t[i] == '_' as int && i + 1 < |t| && InClass(d, t[i + 1]))
  }

  // Nothing the digit rules could take continues at e.
  predicate DigitsStop(s: Input, e: nat, d: DigitClass)
  {
    !InClass(d, LA(s, e, 0)) && !(LA(s, e, 0) == '_' as int && InClass(d, LA(s, e, 1)))
  }

  lemma {:induction false} GroupsShape(s: Input, p: nat, q: nat, d: DigitClass)
    requires p < q <= |s| && IsDigitGroups(s[p..q], d) && !InClass(d, LA(s, q, 0))
    ensures IsDigitGroups(s[p..Groups(s, q, d)], d)
    ensures DigitsStop(s, Groups(s, q, d), d)
    decreases |s| - q
  {
    if LA(s, q, 0) == '_' as int && InClass(d, LA(s, q, 1)) {
      var r := Run(s, q + 1, d);
      var t := s[p..r];
      assert r >= q + 2;
      forall i | 0 <= i < |t|
        ensures InClass(d, t[i]) || (t[i] == '_' as int && i + 1 < |t| && InClass(d, t[i + 1]))
      {
        var u := s[p..q];
        if i < q - p {
          assert t[i] == u[i];
          if !InClass(d, u[i]) {
            assert u[i] == '_' as int && i + 1 < |u| && InClass(d, u[i + 1]);
            assert t[i + 1] == u[i + 1];
          }
        } else if i == q - p {
          assert t[i] == s[q] && t[i + 1] == s[q + 1];
        } else {
          assert t[i] == s[p + i] && q + 1 <= p + i < r;
        }
      }
      GroupsShape(s, p, r, d);
    }
  }

  // DecDigits and HexDigits, started on a class character, take a D+(_D+)*
  // text and stop where nothing more of that form continues.
  lemma DigitsAccept(s: Input, p: nat, d: DigitClass)
    requires p <= |s| && InClass(d, LA(s, p, 0))
    ensures IsDigitGroups(s[p..DigitsEnd(s, p, d)], d)
    ensures DigitsStop(s, DigitsEnd(s, p, d), d)
    ensures DigitsErrors(s, p, d) == 0
  {
    var r := Run(s, p, d);
    assert IsDigitGroups(s[p..r], d) by {
      forall i | 0 <= i < r - p
        ensures InClass(d, s[p..r][i])
      {
        assert s[p..r][i] == s[p + i];
      }
    }
    GroupsShape(s, p, r, d);
  }

  lemma {:induction false} GroupsUnique(s: Input, p: nat, q: nat, e: nat, d: DigitClass)
    requires p < q <= e <= |s| && !InClass(d, LA(s, q, 0))
    requires IsDigitGroups(s[p..e], d) && DigitsStop(s, e, d)
    ensures Groups(s, q, d) == e
    decreases |s| - q
  {
    var t := s[p..e];
    if q < e {
      // s[q] is inside the text but not a class character: a '_' followed by
      // a class character.
      assert t[q - p] == s[q];
      assert t[q - p] == '_' as int && q - p + 1 < |t| && InClass(d, t[q - p + 1]);
      assert t[q - p + 1] == s[q + 1];
      var r := Run(s, q + 1, d);
      GroupsUnique(s, p, r, e, d);
    } else {
      assert q == e;
    }
  }

  // Conversely, any D+(_D+)* text at p after which nothing more of that form
  // continues is exactly what DecDigits / HexDigits take.
  lemma DigitsUnique(s: Input, p: nat, e: nat, d: DigitClass)
    requires p <= e <= |s| && IsDigitGroups(s[p..e], d) && DigitsStop(s, e, d)
    ensures DigitsEnd(s, p, d) == e
  {
    var t := s[p..e];
    assert t[0] == s[p];
    var r := Run(s, p, d);
    GroupsUnique(s, p, r, e, d);
  }

  // The characters the digit rules take are class characters and '_'.
  lemma {:induction false} GroupsChars(s: Input, q: nat, d: DigitClass)
    requires q <= |s|
    ensures forall i :: q <= i < Groups(s, q, d) ==> InClass(d, s[i]) || s[i] == '_' as int
    decreases |s| - q
  {
    if LA(s, q, 0) == '_' as int && InClass(d, LA(s, q, 1)) {
      GroupsChars(s, Run(s, q + 1, d), d);
    }
  }

  lemma DigitsChars(s: Input, p: nat, d: DigitClass)
    requires p <= |s|
    ensures forall i :: p <= i < DigitsEnd(s, p, d) ==> InClass(d, s[i]) || s[i] == '_' as int
  {
    GroupsChars(s, Run(s, p, d), d);
  }

  // Without errors, the BinDigits loop takes what the DecDigits loop would
  // over [01].
  lemma {:induction false} BinGroupsAgree(s: Input, q: nat)
    requires q <= |s| && BinGroupsErrors(s, q) == 0
    ensures BinGroupsEnd(s, q) == Groups(s, q, Bin)
    decreases |s| - q
  {
    if LA(s, q, 0) == '_' as int {
      BinGroupsAgree(s, Run(s, q + 1, Bin));
    }
  }

  lemma {:induction false} BinGroupsStop(s: Input, q: nat)
    requires q <= |s|
    ensures LA(s, BinGroupsEnd(s, q), 0) != '_' as int
    decreases |s| - q
  {
    if LA(s, q, 0) == '_' as int {
      BinGroupsStop(s, Run(s, q + 1, Bin));
    }
  }

  // BinDigits without errors takes a [01]+(_[01]+)* text, and it never stops
  // on a '_'.
  lemma BinDigitsAccept(s: Input, p: nat)
    requires p <= |s| && BinDigitsErrors(s, p) == 0
    ensures IsDigitGroups(s[p..BinDigitsEnd(s, p)], Bin)
    ensures DigitsStop(s, BinDigitsEnd(s, p), Bin)
    ensures LA(s, BinDigitsEnd(s, p), 0) != '_' as int
  {
    BinGroupsAgree(s, Run(s, p, Bin));
    BinGroupsStop(s, Run(s, p, Bin));
    DigitsAccept(s, p, Bin);
  }

  // Unlike DecDigits, BinDigits takes a '_' that no binary digit follows,
  // and reports the failed Match.
  lemma BinTrailingUnderscore(s: Input, p: nat)
    requires p <= |s| && InClass(Bin, LA(s, p, 0))
    requires LA(s, Run(s, p, Bin), 0) == '_' as int && !InClass(Bin, LA(s, Run(s, p, Bin), 1))
    ensures BinDigitsEnd(s, p) > Run(s, p, Bin) == DigitsEnd(s, p, Bin)
    ensures BinDigitsErrors(s, p) > 0
  {
  }

  // ---- the cursor

  // The position in the input and the number of errors the base class has
  // been told of. Match reports a mismatch and does not advance.
  class Cursor {
    const input: Input
    var pos: nat
    var errors: nat

    ghost predicate Valid()
      reads this
    {
      pos <= |input|
    }

    constructor (s: Input)
      ensures Valid() && input == s && pos == 0 && errors == 0
    {
      input := s;
      pos := 0;
      errors := 0;
    }

    method Skip()
      requires pos < |input|
      modifies this
      ensures pos == old(pos) + 1 && errors == old(errors)
    {
      pos := pos + 1;
    }

    // Match(a) and Match(a, b): advance over one of the given characters, or
    // report an error and stay.
    method Match(a: char, b: char)
      requires Valid()
      modifies this
      ensures Valid()
      ensures LA(input, old(pos), 0) in {a as int, b as int} ==> pos == old(pos) + 1 && errors == old(errors)
      ensures LA(input, old(pos), 0) !in {a as int, b as int} ==> pos == old(pos) && errors == old(errors) + 1
    {
      var c := LA(input, pos, 0);
      if c == a as int || c == b as int {
        pos := pos + 1;
      } else {
        errors := errors + 1;
      }
    }

    // MatchRange('0','9'), Match(HexDigit_set0), Match('0','1').
    method MatchClass(d: DigitClass)
      requires Valid()
      modifies this
      ensures Valid()
      ensures pos == old(pos) + (1 - DigitsErrors(input, old(pos), d))
      ensures errors == old(errors) + DigitsErrors(input, old(pos), d)
    {
      if InClass(d, LA(input, pos, 0)) {
        pos := pos + 1;
      } else {
        errors := errors + 1;
      }
    }

    // Check(expectation): reports an error when the expectation fails.
    method Check(expectation: bool)
      modifies this
      ensures pos == old(pos)
      ensures errors == old(errors) + (if expectation then 0 else 1)
    {
      if !expectation {
        errors := errors + 1;
      }
    }

    // MatchExcept(): any character but the end of input.
    method MatchExcept()
      requires Valid()
      modifies this
      ensures Valid()
      ensures old(pos) < |input| ==> pos == old(pos) + 1 && errors == old(errors)
      ensures old(pos) == |input| ==> pos == old(pos) && errors == old(errors) + 1
    {
      if pos < |input| {
        pos := pos + 1;
      } else {
        errors := errors + 1;
      }
    }

    method SkipRun(d: DigitClass)
      requires Valid()
      modifies this
      ensures Valid() && errors == old(errors)
      ensures pos == Run(input, old(pos), d)
    {
      while InClass(d, LA(input, pos, 0))
        invariant Valid()
        invariant Run(input, pos, d) == Run(input, old(pos), d)
        invariant errors == old(errors)
        decreases |input| - pos
      {
        pos := pos + 1;
      }
    }

    // `D (D)*`: one class character, which Match reports when it is missing,
    // then the rest of the run.
    method MatchRun(d: DigitClass)
      requires Valid()
      modifies this
      ensures Valid()
      ensures pos == Run(input, old(pos), d)
      ensures errors == old(errors) + DigitsErrors(input, old(pos), d)
    {
      RunAfterMatch(input, pos, d);
      MatchClass(d);
      SkipRun(d);
    }

    // DecDigits (d = Dec) and HexDigits (d = Hex).
    method Digits(d: DigitClass)
      requires Valid() && d != Bin
      modifies this
      ensures Valid()
      ensures pos == DigitsEnd(input, old(pos), d)
      ensures errors == old(errors) + DigitsErrors(input, old(pos), d)
    {
      ghost var p0 := pos;
      MatchRun(d);
      while LA(input, pos, 0) == '_' as int && InClass(d, LA(input, pos, 1))
        invariant Valid()
        invariant Groups(input, pos, d) == DigitsEnd(input, p0, d)
        invariant errors == old(errors) + DigitsErrors(input, p0, d)
        decreases |input| - pos
      {
        pos := pos + 1;
        SkipRun(d);
      }
    }

    method DecDigits()
      requires Valid()
      modifies this
      ensures Valid()
      ensures pos == DigitsEnd(input, old(pos), Dec)
      ensures errors == old(errors) + DigitsErrors(input, old(pos), Dec)
    {
      Digits(Dec);
    }

    method HexDigits()
      requires Valid()
      modifies this
      ensures Valid()
      ensures pos == DigitsEnd(input, old(pos), Hex)
      ensures errors == old(errors) + DigitsErrors(input, old(pos), Hex)
    {
      Digits(Hex);
    }

    method BinDigits()
      requires Valid()
      modifies this
      ensures Valid()
      ensures pos == BinDigitsEnd(input, old(pos))
      ensures errors == old(errors) + BinDigitsErrors(input, old(pos))
    {
      ghost var p0 := pos;
      MatchRun(Bin);
      while LA(input, pos, 0) == '_' as int
        invariant Valid()
        invariant BinGroupsEnd(input, pos) == BinDigitsEnd(input, p0)
        invariant errors + BinGroupsErrors(input, pos) == old(errors) + BinDigitsErrors(input, p0)
        decreases |input| - pos
      {
        BinGroupStep(input, pos);
        pos := pos + 1;
        MatchRun(Bin);
      }
    }

    // `([^\$\n\r])*`
    method SkipLine()
      requires Valid()
      modifies this
      ensures Valid() && errors == old(errors)
      ensures pos == LineEnd(input, old(pos))
    {
      while !(LA(input, pos, 0) == -1 || IsNewlineChar(LA(input, pos, 0)))
        invariant Valid()
        invariant LineEnd(input, pos) == LineEnd(input, old(pos))
        invariant errors == old(errors)
        decreases |input| - pos
      {
        pos := pos + 1;
      }
    }

    // The characters a Newline takes, `[\r] ([\n])? | [\n]`.
    method NewlineChars()
      requires Valid()
      modifies this
      ensures Valid()
      ensures pos == NewlineEnd(input, old(pos))
      ensures errors == old(errors) + (if IsNewlineChar(LA(input, old(pos), 0)) then 0 else 1)
    {
      if LA(input, pos, 0) == '\r' as int {
        pos := pos + 1;
        if LA(input, pos, 0) == '\n' as int {
          pos := pos + 1;
        }
      } else {
        Match('\n', '\n');
      }
    }
  }
  // ---- nesting of "/*" and "*/"

  // "/*" or "*/" starts at q.
  predicate PairAt(s: Input, q: int)
  {
    (LA(s, q, 0) == '/' as int && LA(s, q, 1) == '*' as int)
    || (LA(s, q, 0) == '*' as int && LA(s, q, 1) == '/' as int)
  }

  // The nesting depth of s[q..i] read left to right a pair at a time: +1
  // for each "/*", -1 for each "*/", and a character that starts neither
  // (or whose partner lies at or past i) taken alone.
  function PairDepth(s: Input, q: nat, i: nat): int
    requires q <= i <= |s|
    decreases i - q
  {
    if q + 2 > i then 0
    else if LA(s, q, 0) == '/' as int && LA(s, q, 1) == '*' as int then 1 + PairDepth(s, q + 2, i)
    else if LA(s, q, 0) == '*' as int && LA(s, q, 1) == '/' as int then PairDepth(s, q + 2, i) - 1
    else PairDepth(s, q + 1, i)
  }

  // Reading pairs from q passes m: m does not fall inside a pair.
  predicate Reaches(s: Input, q: nat, m: nat)
    decreases m - q
  {
    q == m
    || (q < m && (if PairAt(s, q) then q + 2 <= m && Reaches(s, q + 2, m) else Reaches(s, q + 1, m)))
  }

  // Where reading passes m, the depth of s[q..i] is that of s[q..m] plus
  // that of s[m..i].
  lemma {:induction false} DepthSplit(s: Input, q: nat, m: nat, i: nat)
    requires q <= m <= i <= |s| && Reaches(s, q, m)
    ensures PairDepth(s, q, i) == PairDepth(s, q, m) + PairDepth(s, m, i)
    decreases m - q
  {
    if q < m {
      if PairAt(s, q) {
        DepthSplit(s, q + 2, m, i);
      } else if q + 1 < m {
        DepthSplit(s, q + 1, m, i);
      }
    }
  }

  lemma {:induction false} ReachesTrans(s: Input, q: nat, m: nat, e: nat)
    requires q <= m <= e && Reaches(s, q, m) && Reaches(s, m, e)
    ensures Reaches(s, q, e)
    decreases m - q
  {
    if q < m {
      if PairAt(s, q) {
        ReachesTrans(s, q + 2, m, e);
      } else {
        ReachesTrans(s, q + 1, m, e);
      }
    }
  }

  // A character that starts no pair is read alone and adds nothing.
  lemma SingleStep(s: Input, q: nat)
    requires q < |s| && !PairAt(s, q)
    ensures Reaches(s, q, q + 1)
    ensures forall i :: q + 1 <= i <= |s| ==> PairDepth(s, q, i) == PairDepth(s, q + 1, i)
  {
  }

  // "/*" at q is read as one pair.
  lemma OpenStep(s: Input, q: nat)
    requires q + 2 <= |s| && LA(s, q, 0) == '/' as int && LA(s, q, 1) == '*' as int
    ensures Reaches(s, q, q + 2)
    ensures PairDepth(s, q, q + 1) == 0
    ensures forall i :: q + 2 <= i <= |s| ==> PairDepth(s, q, i) == 1 + PairDepth(s, q + 2, i)
  {
  }

  // "*/" at q is read as one pair.
  lemma CloseStep(s: Input, q: nat)
    requires q + 2 <= |s| && LA(s, q, 0) == '*' as int && LA(s, q, 1) == '/' as int
    ensures Reaches(s, q, q + 2)
    ensures PairDepth(s, q, q + 1) == 0
    ensures forall i :: q + 2 <= i <= |s| ==> PairDepth(s, q, i) == PairDepth(s, q + 2, i) - 1
  {
  }
}
