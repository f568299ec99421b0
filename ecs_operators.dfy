// EcsLexer's Operator rule. The grammar lists the operators as ordered
// alternatives (OperatorAt below, in grammar order); the generated code
// decides between them with a switch on up to four characters of lookahead
// (OperatorTree). The lemmas show that the switch takes the longest operator
// that matches, except on "?|=" without a '>' after it.
module EcsOperators {
  import opened Chars
  import opened LexerCore
  import opened EcsTokens

  datatype OpEntry = OpEntry(text: string, tokenType: TokenType, value: TokenValue)

  const OperatorCount: nat := 59

  // Operator j of the grammar's alternatives, in their order.
  function OperatorAt(j: nat): OpEntry
    requires j < OperatorCount
  {
    match j
    case 0 => OpEntry("...", DotDot, CodeSymbol("DotDotDot"))
    case 1 => OpEntry("..<", DotDot, CodeSymbol("DotDot"))
    case 2 => OpEntry("..", DotDot, CodeSymbol("DotDot"))
    case 3 => OpEntry(".", Dot, CodeSymbol("Dot"))
    case 4 => OpEntry(">>=", CompoundAssign, CodeSymbol("ShrAssign"))
    case 5 => OpEntry(">=", LEGE, CodeSymbol("GE"))
    case 6 => OpEntry(">", GT, CodeSymbol("GT"))
    case 7 => OpEntry("<=>", Compare, CodeSymbol("Compare"))
    case 8 => OpEntry("<<=", CompoundAssign, CodeSymbol("ShlAssign"))
    case 9 => OpEntry("<=", LEGE, CodeSymbol("LE"))
    case 10 => OpEntry("<", LT, CodeSymbol("LT"))
    case 11 => OpEntry("&&", And, CodeSymbol("And"))
    case 12 => OpEntry("&=", CompoundAssign, CodeSymbol("AndBitsAssign"))
    case 13 => OpEntry("&", AndBits, CodeSymbol("AndBits"))
    case 14 => OpEntry("|>", PipeArrow, CodeSymbol("ForwardPipeArrow"))
    case 15 => OpEntry("|=>", PipeArrow, CodeSymbol("ForwardAssign"))
    case 16 => OpEntry("||", OrXor, CodeSymbol("Or"))
    case 17 => OpEntry("|=", CompoundAssign, CodeSymbol("OrBitsAssign"))
    case 18 => OpEntry("|", OrBits, CodeSymbol("OrBits"))
    case 19 => OpEntry("^^", OrXor, CodeSymbol("Xor"))
    case 20 => OpEntry("^=", CompoundAssign, CodeSymbol("XorBitsAssign"))
    case 21 => OpEntry("^", XorBits, CodeSymbol("XorBits"))
    case 22 => OpEntry(":=", CompoundAssign, CodeSymbol("QuickBindAssign"))
    case 23 => OpEntry("=:", QuickBind, CodeSymbol("QuickBind"))
    case 24 => OpEntry("::", ColonColon, CodeSymbol("ColonColon"))
    case 25 => OpEntry(":", Colon, CodeSymbol("Colon"))
    case 26 => OpEntry("==>", Forward, CodeSymbol("Forward"))
    case 27 => OpEntry("==", EqNeq, CodeSymbol("Eq"))
    case 28 => OpEntry("=>", LambdaArrow, CodeSymbol("Lambda"))
    case 29 => OpEntry("=", Assign, CodeSymbol("Assign"))
    case 30 => OpEntry("!=", EqNeq, CodeSymbol("NotEq"))
    case 31 => OpEntry("!", Not, CodeSymbol("Not"))
    case 32 => OpEntry("~=", CompoundAssign, CodeSymbol("ConcatAssign"))
    case 33 => OpEntry("~", NotBits, CodeSymbol("NotBits"))
    case 34 => OpEntry("**=", CompoundAssign, CodeSymbol("ExpAssign"))
    case 35 => OpEntry("**", Power, CodeSymbol("Exp"))
    case 36 => OpEntry("*=", CompoundAssign, CodeSymbol("MulAssign"))
    case 37 => OpEntry("*", Mul, CodeSymbol("Mul"))
    case 38 => OpEntry("/=", CompoundAssign, CodeSymbol("DivAssign"))
    case 39 => OpEntry("/", DivMod, CodeSymbol("Div"))
    case 40 => OpEntry("%=", CompoundAssign, CodeSymbol("ModAssign"))
    case 41 => OpEntry("%", DivMod, CodeSymbol("Mod"))
    case 42 => OpEntry("+=", CompoundAssign, CodeSymbol("AddAssign"))
    case 43 => OpEntry("++", IncDec, CodeSymbol("PreInc"))
    case 44 => OpEntry("+", Add, CodeSymbol("Add"))
    case 45 => OpEntry("->", PtrArrow, CodeSymbol("RightArrow"))
    case 46 => OpEntry("-=", CompoundAssign, CodeSymbol("SubAssign"))
    case 47 => OpEntry("--", IncDec, CodeSymbol("PreDec"))
    case 48 => OpEntry("-", Sub, CodeSymbol("Sub"))
    case 49 => OpEntry("??=", CompoundAssign, CodeSymbol("NullCoalesceAssign"))
    case 50 => OpEntry("??", NullCoalesce, CodeSymbol("NullCoalesce"))
    case 51 => OpEntry("?.", NullDot, CodeSymbol("NullDot"))
    case 52 => OpEntry("?|>", PipeArrow, CodeSymbol("NullForwardPipeArrow"))
    case 53 => OpEntry("?>", PipeArrow, CodeSymbol("NullForwardPipeArrow"))
    case 54 => OpEntry("?|=>", PipeArrow, CodeSymbol("ForwardNullCoalesceAssign"))
    case 55 => OpEntry("?=>", PipeArrow, CodeSymbol("ForwardNullCoalesceAssign"))
    case 56 => OpEntry("?", QuestionMark, CodeSymbol("QuestionMark"))
    case 57 => OpEntry("$", Substitute, CodeSymbol("Substitute"))
    case _ => OpEntry("\\", Backslash, CodeSymbol("Backslash"))
  }

  // The alternative the switch chose (an index into the table), how many
  // characters it took and how many errors it reported.
  datatype OpPick = OpPick(alt: nat, length: nat, errors: nat)

  function Took(alt: nat, length: nat): OpPick
  {
    OpPick(alt, length, 0)
  }

  // Operator at p, as the generated switch decides it. match7, match11 and
  // match57 are the one-character '>', '<' and '?'.
  function OperatorTree(s: Input, p: nat): (r: OpPick)
    ensures r.alt < OperatorCount && r.length <= 4 && r.errors <= 1
  {
    var c0, c1, c2, c3 := LA(s, p, 0), LA(s, p, 1), LA(s, p, 2), LA(s, p, 3);
    if c0 == '.' as int then
      if c1 == '.' as int then
        (if c2 == '.' as int then Took(0, 3) else if c2 == '<' as int then Took(1, 3) else Took(2, 2))
      else Took(3, 1)
    else if c0 == '>' as int then
      if c1 == '>' as int then (if c2 == '=' as int then Took(4, 3) else Took(6, 1))
      else if c1 == '=' as int then Took(5, 2)
      else Took(6, 1)
    else if c0 == '<' as int then
      if c1 == '=' as int then (if c2 == '>' as int then Took(7, 3) else Took(9, 2))
      else if c1 == '<' as int then (if c2 == '=' as int then Took(8, 3) else Took(10, 1))
      else Took(10, 1)
    else if c0 == '&' as int then
      if c1 == '&' as int then Took(11, 2) else if c1 == '=' as int then Took(12, 2) else Took(13, 1)
    else if c0 == '|' as int then
      if c1 == '>' as int then Took(14, 2)
      else if c1 == '=' as int then (if c2 == '>' as int then Took(15, 3) else Took(17, 2))
      else if c1 == '|' as int then Took(16, 2)
      else Took(18, 1)
    else if c0 == '^' as int then
      if c1 == '^' as int then Took(19, 2) else if c1 == '=' as int then Took(20, 2) else Took(21, 1)
    else if c0 == ':' as int then
      if c1 == '=' as int then Took(22, 2) else if c1 == ':' as int then Took(24, 2) else Took(25, 1)
    else if c0 == '=' as int then
      if c1 == ':' as int then Took(23, 2)
      else if c1 == '=' as int then (if c2 == '>' as int then Took(26, 3) else Took(27, 2))
      else if c1 == '>' as int then Took(28, 2)
      else Took(29, 1)
    else if c0 == '!' as int then
      if c1 == '=' as int then Took(30, 2) else Took(31, 1)
    else if c0 == '~' as int then
      if c1 == '=' as int then Took(32, 2) else Took(33, 1)
    else if c0 == '*' as int then
      if c1 == '*' as int then (if c2 == '=' as int then Took(34, 3) else Took(35, 2))
      else if c1 == '=' as int then Took(36, 2)
      else Took(37, 1)
    else if c0 == '/' as int then
      if c1 == '=' as int then Took(38, 2) else Took(39, 1)
    else if c0 == '%' as int then
      if c1 == '=' as int then Took(40, 2) else Took(41, 1)
    else if c0 == '+' as int then
      if c1 == '=' as int then Took(42, 2) else if c1 == '+' as int then Took(43, 2) else Took(44, 1)
    else if c0 == '-' as int then
      if c1 == '>' as int then Took(45, 2)
      else if c1 == '=' as int then Took(46, 2)
      else if c1 == '-' as int then Took(47, 2)
      else Took(48, 1)
    else if c0 == '?' as int then QuestionTree(c1, c2, c3)
    else if c0 == '$' as int then Took(57, 1)
    // default: Match('\\')
    else if c0 == '\\' as int then Took(58, 1)
    else OpPick(58, 0, 1)
  }

  // The switch on the characters after a '?' (c1, c2 and c3).
  function QuestionTree(c1: int, c2: int, c3: int): (r: OpPick)
    ensures 49 <= r.alt <= 56 && r.length <= 4 && r.errors <= 1
  {
    if c1 == '?' as int then (if c2 == '=' as int then Took(49, 3) else Took(50, 2))
    else if c1 == '.' as int then Took(51, 2)
    else if c1 == '|' as int then
      (if c2 == '>' as int then Took(52, 3)
       // Skip() three times, then Match('>')
       else if c2 == '=' as int then (if c3 == '>' as int then Took(54, 4) else OpPick(54, 3, 1))
       else Took(56, 1))
    else if c1 == '>' as int then Took(53, 2)
    else if c1 == '=' as int then (if c2 == '>' as int then Took(55, 3) else Took(56, 1))
    else Took(56, 1)
  }

  // "?|=" not followed by '>': three characters of lookahead commit the
  // switch to "?|=>" before the fourth is seen.
  predicate LookaheadGap(s: Input, p: nat)
  {
    LA(s, p, 0) == '?' as int && LA(s, p, 1) == '|' as int && LA(s, p, 2) == '=' as int
    && LA(s, p, 3) != '>' as int
  }

  // Operator j of the table matches at p and no operator that matches is
  // longer.
  ghost predicate LongestAt(s: Input, p: nat, j: nat)
    requires j < OperatorCount
  {
    MatchesAt(s, p, OperatorAt(j).text)
    && forall i :: 0 <= i < OperatorCount && MatchesAt(s, p, OperatorAt(i).text) ==>
         |OperatorAt(i).text| <= |OperatorAt(j).text|
  }

  // When the switch reports no error, the operator it chose is at p and it
  // took exactly that operator's characters.
  lemma TreeMatches(s: Input, p: nat)
    ensures var r := OperatorTree(s, p);
      r.errors == 0 ==> MatchesAt(s, p, OperatorAt(r.alt).text) && r.length == |OperatorAt(r.alt).text|
  {
    var c := LA(s, p, 0);
    if c == '.' as int {
      TreeMatchesDot(s, p);
    } else if c == '>' as int {
      TreeMatchesGreater(s, p);
    } else if c == '<' as int {
      TreeMatchesLess(s, p);
    } else if c == '&' as int {
      TreeMatchesAmp(s, p);
    } else if c == '|' as int {
      TreeMatchesBar(s, p);
    } else if c == '^' as int {
      TreeMatchesCaret(s, p);
    } else if c == ':' as int {
      TreeMatchesColon(s, p);
    } else if c == '=' as int {
      TreeMatchesEquals(s, p);
    } else if c == '!' as int {
      TreeMatchesBang(s, p);
    } else if c == '~' as int {
      TreeMatchesTilde(s, p);
    } else if c == '*' as int {
      TreeMatchesStar(s, p);
    } else if c == '/' as int {
      TreeMatchesSlash(s, p);
    } else if c == '%' as int {
      TreeMatchesPercent(s, p);
    } else if c == '+' as int {
      TreeMatchesPlus(s, p);
    } else if c == '-' as int {
      TreeMatchesMinus(s, p);
    } else if c == '?' as int {
      TreeMatchesQuestion(s, p);
    } else if c == '$' as int {
      TreeMatchesDollar(s, p);
    } else if c == '\\' as int {
      TreeMatchesBackslash(s, p);
    }
  }

  // Any operator j that matches at p is no longer than what the switch took,
  // and one of the same length is the one it chose; the lookahead gap aside.
  lemma EntryNoLonger(s: Input, p: nat, j: nat)
    requires j < OperatorCount && MatchesAt(s, p, OperatorAt(j).text)
    ensures var r := OperatorTree(s, p);
      LookaheadGap(s, p)
      || (r.errors == 0 && |OperatorAt(j).text| <= r.length
          && (|OperatorAt(j).text| == r.length ==> j == r.alt))
  {
    if j == 0 || j == 1 || j == 2 || j == 3 {
      EntryNoLongerDot(s, p, j);
    } else if j == 4 || j == 5 || j == 6 {
      EntryNoLongerGreater(s, p, j);
    } else if j == 7 || j == 8 || j == 9 || j == 10 {
      EntryNoLongerLess(s, p, j);
    } else if j == 11 || j == 12 || j == 13 {
      EntryNoLongerAmp(s, p, j);
    } else if j == 14 || j == 15 || j == 16 || j == 17 || j == 18 {
      EntryNoLongerBar(s, p, j);
    } else if j == 19 || j == 20 || j == 21 {
      EntryNoLongerCaret(s, p, j);
    } else if j == 22 || j == 24 || j == 25 {
      EntryNoLongerColon(s, p, j);
    } else if j == 23 || j == 26 || j == 27 || j == 28 || j == 29 {
      EntryNoLongerEquals(s, p, j);
    } else if j == 30 || j == 31 {
      EntryNoLongerBang(s, p, j);
    } else if j == 32 || j == 33 {
      EntryNoLongerTilde(s, p, j);
    } else if j == 34 || j == 35 || j == 36 || j == 37 {
      EntryNoLongerStar(s, p, j);
    } else if j == 38 || j == 39 {
      EntryNoLongerSlash(s, p, j);
    } else if j == 40 || j == 41 {
      EntryNoLongerPercent(s, p, j);
    } else if j == 42 || j == 43 || j == 44 {
      EntryNoLongerPlus(s, p, j);
    } else if j == 45 || j == 46 || j == 47 || j == 48 {
      EntryNoLongerMinus(s, p, j);
    } else if j == 49 || j == 50 || j == 51 || j == 52 || j == 53 || j == 54 || j == 55 || j == 56 {
      EntryNoLongerQuestion(s, p, j);
    } else if j == 57 {
      EntryNoLongerDollar(s, p, j);
    } else {
      EntryNoLongerBackslash(s, p, j);
    }
  }

  // Operator takes the longest operator that matches at p, and no other
  // operator of that length matches. It reports an error exactly when no
  // operator matches at p; then it takes nothing. The lookahead gap aside.
  lemma OperatorLongestMatch(s: Input, p: nat)
    requires !LookaheadGap(s, p)
    ensures var r := OperatorTree(s, p);
      (r.errors == 0 <==> exists j :: 0 <= j < OperatorCount && MatchesAt(s, p, OperatorAt(j).text))
      && (r.errors == 0 ==> LongestAt(s, p, r.alt) && r.length == |OperatorAt(r.alt).text|)
      && (r.errors == 0 ==> forall j :: 0 <= j < OperatorCount && LongestAt(s, p, j) ==> j == r.alt)
      && (r.errors != 0 ==> r.length == 0)
  {
    var r := OperatorTree(s, p);
    TreeMatches(s, p);
    forall j | 0 <= j < OperatorCount && MatchesAt(s, p, OperatorAt(j).text)
      ensures r.errors == 0 && |OperatorAt(j).text| <= r.length
      ensures |OperatorAt(j).text| == r.length ==> j == r.alt
    {
      EntryNoLonger(s, p, j);
    }
    if r.errors == 0 {
      assert MatchesAt(s, p, OperatorAt(r.alt).text);
    }
  }

  // On "?|=" without a '>' after it, Operator commits to "?|=>": it takes
  // three characters and reports an error, though the only operator that
  // matches there is "?".
  lemma OperatorLookaheadGap(s: Input, p: nat)
    requires LookaheadGap(s, p)
    ensures OperatorTree(s, p) == OpPick(54, 3, 1)
    ensures OperatorAt(54).text == "?|=>" && OperatorAt(54).value == CodeSymbol("ForwardNullCoalesceAssign")
    ensures OperatorAt(56).text == "?" && LongestAt(s, p, 56)
    ensures forall i :: 0 <= i < OperatorCount && MatchesAt(s, p, OperatorAt(i).text) ==> i == 56
  {
    forall i | 0 <= i < OperatorCount && MatchesAt(s, p, OperatorAt(i).text)
      ensures i == 56
    {
      GapEntry(s, p, i);
    }
    MatchesAtShort(s, p, OperatorAt(56).text);
  }

  lemma GapEntry(s: Input, p: nat, i: nat)
    requires LookaheadGap(s, p) && i < OperatorCount && MatchesAt(s, p, OperatorAt(i).text)
    ensures i == 56
  {
    QuestionEntries(i);
    assert LA(s, p, 0) == OperatorAt(i).text[0] as int;
  }

  // The operators that start with '?' are entries 49 to 56.
  lemma QuestionEntries(i: nat)
    requires i < OperatorCount
    ensures 1 <= |OperatorAt(i).text|
    ensures OperatorAt(i).text[0] == '?' ==> 49 <= i <= 56
  {
    if i < 25 {
      NoQuestionBelow25(i);
    } else if i < 49 {
      NoQuestionBelow49(i);
    } else if 56 < i {
      assert i == 57 || i == 58;
    }
  }

  lemma NoQuestionBelow25(i: nat)
    requires i < 25
    ensures 1 <= |OperatorAt(i).text| && OperatorAt(i).text[0] != '?'
  {
  }

  lemma NoQuestionBelow49(i: nat)
    requires 25 <= i < 49
    ensures 1 <= |OperatorAt(i).text| && OperatorAt(i).text[0] != '?'
  {
  }

  // ">>" is not an operator: with no '=' after it, each '>' is a GT.
  lemma ShiftIsTwoGreater(s: Input, p: nat)
    requires LA(s, p, 0) == '>' as int && LA(s, p, 1) == '>' as int
    requires LA(s, p, 2) != '=' as int && LA(s, p, 2) != '>' as int
    ensures OperatorTree(s, p) == OperatorTree(s, p + 1) == OpPick(6, 1, 0)
    ensures OperatorAt(6) == OpEntry(">", GT, CodeSymbol("GT"))
  {
  }

  lemma TreeMatchesDot(s: Input, p: nat)
    requires LA(s, p, 0) == '.' as int
    ensures var r := OperatorTree(s, p);
      r.errors == 0 ==> MatchesAt(s, p, OperatorAt(r.alt).text) && r.length == |OperatorAt(r.alt).text|
  {
    var r := OperatorTree(s, p);
    MatchesAtShort(s, p, OperatorAt(r.alt).text);
  }

  lemma EntryNoLongerDot(s: Input, p: nat, j: nat)
    requires (j == 0 || j == 1 || j == 2 || j == 3) && MatchesAt(s, p, OperatorAt(j).text)
    ensures var r := OperatorTree(s, p);
      LookaheadGap(s, p)
      || (r.errors == 0 && |OperatorAt(j).text| <= r.length
          && (|OperatorAt(j).text| == r.length ==> j == r.alt))
  {
    if j == 0 {
      MatchesAtShort(s, p, OperatorAt(0).text);
      assert LA(s, p, 0) == '.' as int && LA(s, p, 1) == '.' as int && LA(s, p, 2) == '.' as int;
    } else if j == 1 {
      MatchesAtShort(s, p, OperatorAt(1).text);
      assert LA(s, p, 0) == '.' as int && LA(s, p, 1) == '.' as int && LA(s, p, 2) == '<' as int;
    } else if j == 2 {
      MatchesAtShort(s, p, OperatorAt(2).text);
      assert LA(s, p, 0) == '.' as int && LA(s, p, 1) == '.' as int;
    } else {
      MatchesAtShort(s, p, OperatorAt(3).text);
      assert LA(s, p, 0) == '.' as int;
    }
  }

  lemma TreeMatchesGreater(s: Input, p: nat)
    requires LA(s, p, 0) == '>' as int
    ensures var r := OperatorTree(s, p);
      r.errors == 0 ==> MatchesAt(s, p, OperatorAt(r.alt).text) && r.length == |OperatorAt(r.alt).text|
  {
    var r := OperatorTree(s, p);
    MatchesAtShort(s, p, OperatorAt(r.alt).text);
  }

  lemma EntryNoLongerGreater(s: Input, p: nat, j: nat)
    requires (j == 4 || j == 5 || j == 6) && MatchesAt(s, p, OperatorAt(j).text)
    ensures var r := OperatorTree(s, p);
      LookaheadGap(s, p)
      || (r.errors == 0 && |OperatorAt(j).text| <= r.length
          && (|OperatorAt(j).text| == r.length ==> j == r.alt))
  {
    if j == 4 {
      MatchesAtShort(s, p, OperatorAt(4).text);
      assert LA(s, p, 0) == '>' as int && LA(s, p, 1) == '>' as int && LA(s, p, 2) == '=' as int;
    } else if j == 5 {
      MatchesAtShort(s, p, OperatorAt(5).text);
      assert LA(s, p, 0) == '>' as int && LA(s, p, 1) == '=' as int;
    } else {
      MatchesAtShort(s, p, OperatorAt(6).text);
      assert LA(s, p, 0) == '>' as int;
    }
  }

  lemma TreeMatchesLess(s: Input, p: nat)
    requires LA(s, p, 0) == '<' as int
    ensures var r := OperatorTree(s, p);
      r.errors == 0 ==> MatchesAt(s, p, OperatorAt(r.alt).text) && r.length == |OperatorAt(r.alt).text|
  {
    var r := OperatorTree(s, p);
    MatchesAtShort(s, p, OperatorAt(r.alt).text);
  }

  lemma EntryNoLongerLess(s: Input, p: nat, j: nat)
    requires (j == 7 || j == 8 || j == 9 || j == 10) && MatchesAt(s, p, OperatorAt(j).text)
    ensures var r := OperatorTree(s, p);
      LookaheadGap(s, p)
      || (r.errors == 0 && |OperatorAt(j).text| <= r.length
          && (|OperatorAt(j).text| == r.length ==> j == r.alt))
  {
    if j == 7 {
      MatchesAtShort(s, p, OperatorAt(7).text);
      assert LA(s, p, 0) == '<' as int && LA(s, p, 1) == '=' as int && LA(s, p, 2) == '>' as int;
    } else if j == 8 {
      MatchesAtShort(s, p, OperatorAt(8).text);
      assert LA(s, p, 0) == '<' as int && LA(s, p, 1) == '<' as int && LA(s, p, 2) == '=' as int;
    } else if j == 9 {
      MatchesAtShort(s, p, OperatorAt(9).text);
      assert LA(s, p, 0) == '<' as int && LA(s, p, 1) == '=' as int;
    } else {
      MatchesAtShort(s, p, OperatorAt(10).text);
      assert LA(s, p, 0) == '<' as int;
    }
  }

  lemma TreeMatchesAmp(s: Input, p: nat)
    requires LA(s, p, 0) == '&' as int
    ensures var r := OperatorTree(s, p);
      r.errors == 0 ==> MatchesAt(s, p, OperatorAt(r.alt).text) && r.length == |OperatorAt(r.alt).text|
  {
    var r := OperatorTree(s, p);
    MatchesAtShort(s, p, OperatorAt(r.alt).text);
  }

  lemma EntryNoLongerAmp(s: Input, p: nat, j: nat)
    requires (j == 11 || j == 12 || j == 13) && MatchesAt(s, p, OperatorAt(j).text)
    ensures var r := OperatorTree(s, p);
      LookaheadGap(s, p)
      || (r.errors == 0 && |OperatorAt(j).text| <= r.length
          && (|OperatorAt(j).text| == r.length ==> j == r.alt))
  {
    if j == 11 {
      MatchesAtShort(s, p, OperatorAt(11).text);
      assert LA(s, p, 0) == '&' as int && LA(s, p, 1) == '&' as int;
    } else if j == 12 {
      MatchesAtShort(s, p, OperatorAt(12).text);
      assert LA(s, p, 0) == '&' as int && LA(s, p, 1) == '=' as int;
    } else {
      MatchesAtShort(s, p, OperatorAt(13).text);
      assert LA(s, p, 0) == '&' as int;
    }
  }

  lemma TreeMatchesBar(s: Input, p: nat)
    requires LA(s, p, 0) == '|' as int
    ensures var r := OperatorTree(s, p);
      r.errors == 0 ==> MatchesAt(s, p, OperatorAt(r.alt).text) && r.length == |OperatorAt(r.alt).text|
  {
    var r := OperatorTree(s, p);
    MatchesAtShort(s, p, OperatorAt(r.alt).text);
  }

  lemma EntryNoLongerBar(s: Input, p: nat, j: nat)
    requires (j == 14 || j == 15 || j == 16 || j == 17 || j == 18) && MatchesAt(s, p, OperatorAt(j).text)
    ensures var r := OperatorTree(s, p);
      LookaheadGap(s, p)
      || (r.errors == 0 && |OperatorAt(j).text| <= r.length
          && (|OperatorAt(j).text| == r.length ==> j == r.alt))
  {
    if j == 14 {
      MatchesAtShort(s, p, OperatorAt(14).text);
      assert LA(s, p, 0) == '|' as int && LA(s, p, 1) == '>' as int;
    } else if j == 15 {
      MatchesAtShort(s, p, OperatorAt(15).text);
      assert LA(s, p, 0) == '|' as int && LA(s, p, 1) == '=' as int && LA(s, p, 2) == '>' as int;
    } else if j == 16 {
      MatchesAtShort(s, p, OperatorAt(16).text);
      assert LA(s, p, 0) == '|' as int && LA(s, p, 1) == '|' as int;
    } else if j == 17 {
      MatchesAtShort(s, p, OperatorAt(17).text);
      assert LA(s, p, 0) == '|' as int && LA(s, p, 1) == '=' as int;
    } else {
      MatchesAtShort(s, p, OperatorAt(18).text);
      assert LA(s, p, 0) == '|' as int;
    }
  }

  lemma TreeMatchesCaret(s: Input, p: nat)
    requires LA(s, p, 0) == '^' as int
    ensures var r := OperatorTree(s, p);
      r.errors == 0 ==> MatchesAt(s, p, OperatorAt(r.alt).text) && r.length == |OperatorAt(r.alt).text|
  {
    var r := OperatorTree(s, p);
    MatchesAtShort(s, p, OperatorAt(r.alt).text);
  }

  lemma EntryNoLongerCaret(s: Input, p: nat, j: nat)
    requires (j == 19 || j == 20 || j == 21) && MatchesAt(s, p, OperatorAt(j).text)
    ensures var r := OperatorTree(s, p);
      LookaheadGap(s, p)
      || (r.errors == 0 && |OperatorAt(j).text| <= r.length
          && (|OperatorAt(j).text| == r.length ==> j == r.alt))
  {
    if j == 19 {
      MatchesAtShort(s, p, OperatorAt(19).text);
      assert LA(s, p, 0) == '^' as int && LA(s, p, 1) == '^' as int;
    } else if j == 20 {
      MatchesAtShort(s, p, OperatorAt(20).text);
      assert LA(s, p, 0) == '^' as int && LA(s, p, 1) == '=' as int;
    } else {
      MatchesAtShort(s, p, OperatorAt(21).text);
      assert LA(s, p, 0) == '^' as int;
    }
  }

  lemma TreeMatchesColon(s: Input, p: nat)
    requires LA(s, p, 0) == ':' as int
    ensures var r := OperatorTree(s, p);
      r.errors == 0 ==> MatchesAt(s, p, OperatorAt(r.alt).text) && r.length == |OperatorAt(r.alt).text|
  {
    var r := OperatorTree(s, p);
    MatchesAtShort(s, p, OperatorAt(r.alt).text);
  }

  lemma EntryNoLongerColon(s: Input, p: nat, j: nat)
    requires (j == 22 || j == 24 || j == 25) && MatchesAt(s, p, OperatorAt(j).text)
    ensures var r := OperatorTree(s, p);
      LookaheadGap(s, p)
      || (r.errors == 0 && |OperatorAt(j).text| <= r.length
          && (|OperatorAt(j).text| == r.length ==> j == r.alt))
  {
    if j == 22 {
      MatchesAtShort(s, p, OperatorAt(22).text);
      assert LA(s, p, 0) == ':' as int && LA(s, p, 1) == '=' as int;
    } else if j == 24 {
      MatchesAtShort(s, p, OperatorAt(24).text);
      assert LA(s, p, 0) == ':' as int && LA(s, p, 1) == ':' as int;
    } else {
      MatchesAtShort(s, p, OperatorAt(25).text);
      assert LA(s, p, 0) == ':' as int;
    }
  }

  lemma TreeMatchesEquals(s: Input, p: nat)
    requires LA(s, p, 0) == '=' as int
    ensures var r := OperatorTree(s, p);
      r.errors == 0 ==> MatchesAt(s, p, OperatorAt(r.alt).text) && r.length == |OperatorAt(r.alt).text|
  {
    var r := OperatorTree(s, p);
    MatchesAtShort(s, p, OperatorAt(r.alt).text);
  }

  lemma EntryNoLongerEquals(s: Input, p: nat, j: nat)
    requires (j == 23 || j == 26 || j == 27 || j == 28 || j == 29) && MatchesAt(s, p, OperatorAt(j).text)
    ensures var r := OperatorTree(s, p);
      LookaheadGap(s, p)
      || (r.errors == 0 && |OperatorAt(j).text| <= r.length
          && (|OperatorAt(j).text| == r.length ==> j == r.alt))
  {
    if j == 23 {
      MatchesAtShort(s, p, OperatorAt(23).text);
      assert LA(s, p, 0) == '=' as int && LA(s, p, 1) == ':' as int;
    } else if j == 26 {
      MatchesAtShort(s, p, OperatorAt(26).text);
      assert LA(s, p, 0) == '=' as int && LA(s, p, 1) == '=' as int && LA(s, p, 2) == '>' as int;
    } else if j == 27 {
      MatchesAtShort(s, p, OperatorAt(27).text);
      assert LA(s, p, 0) == '=' as int && LA(s, p, 1) == '=' as int;
    } else if j == 28 {
      MatchesAtShort(s, p, OperatorAt(28).text);
      assert LA(s, p, 0) == '=' as int && LA(s, p, 1) == '>' as int;
    } else {
      MatchesAtShort(s, p, OperatorAt(29).text);
      assert LA(s, p, 0) == '=' as int;
    }
  }

  lemma TreeMatchesBang(s: Input, p: nat)
    requires LA(s, p, 0) == '!' as int
    ensures var r := OperatorTree(s, p);
      r.errors == 0 ==> MatchesAt(s, p, OperatorAt(r.alt).text) && r.length == |OperatorAt(r.alt).text|
  {
    var r := OperatorTree(s, p);
    MatchesAtShort(s, p, OperatorAt(r.alt).text);
  }

  lemma EntryNoLongerBang(s: Input, p: nat, j: nat)
    requires (j == 30 || j == 31) && MatchesAt(s, p, OperatorAt(j).text)
    ensures var r := OperatorTree(s, p);
      LookaheadGap(s, p)
      || (r.errors == 0 && |OperatorAt(j).text| <= r.length
          && (|OperatorAt(j).text| == r.length ==> j == r.alt))
  {
    if j == 30 {
      MatchesAtShort(s, p, OperatorAt(30).text);
      assert LA(s, p, 0) == '!' as int && LA(s, p, 1) == '=' as int;
    } else {
      MatchesAtShort(s, p, OperatorAt(31).text);
      assert LA(s, p, 0) == '!' as int;
    }
  }

  lemma TreeMatchesTilde(s: Input, p: nat)
    requires LA(s, p, 0) == '~' as int
    ensures var r := OperatorTree(s, p);
      r.errors == 0 ==> MatchesAt(s, p, OperatorAt(r.alt).text) && r.length == |OperatorAt(r.alt).text|
  {
    var r := OperatorTree(s, p);
    MatchesAtShort(s, p, OperatorAt(r.alt).text);
  }

  lemma EntryNoLongerTilde(s: Input, p: nat, j: nat)
    requires (j == 32 || j == 33) && MatchesAt(s, p, OperatorAt(j).text)
    ensures var r := OperatorTree(s, p);
      LookaheadGap(s, p)
      || (r.errors == 0 && |OperatorAt(j).text| <= r.length
          && (|OperatorAt(j).text| == r.length ==> j == r.alt))
  {
    if j == 32 {
      MatchesAtShort(s, p, OperatorAt(32).text);
      assert LA(s, p, 0) == '~' as int && LA(s, p, 1) == '=' as int;
    } else {
      MatchesAtShort(s, p, OperatorAt(33).text);
      assert LA(s, p, 0) == '~' as int;
    }
  }

  lemma TreeMatchesStar(s: Input, p: nat)
    requires LA(s, p, 0) == '*' as int
    ensures var r := OperatorTree(s, p);
      r.errors == 0 ==> MatchesAt(s, p, OperatorAt(r.alt).text) && r.length == |OperatorAt(r.alt).text|
  {
    var r := OperatorTree(s, p);
    MatchesAtShort(s, p, OperatorAt(r.alt).text);
  }

  lemma EntryNoLongerStar(s: Input, p: nat, j: nat)
    requires (j == 34 || j == 35 || j == 36 || j == 37) && MatchesAt(s, p, OperatorAt(j).text)
    ensures var r := OperatorTree(s, p);
      LookaheadGap(s, p)
      || (r.errors == 0 && |OperatorAt(j).text| <= r.length
          && (|OperatorAt(j).text| == r.length ==> j == r.alt))
  {
    if j == 34 {
      MatchesAtShort(s, p, OperatorAt(34).text);
      assert LA(s, p, 0) == '*' as int && LA(s, p, 1) == '*' as int && LA(s, p, 2) == '=' as int;
    } else if j == 35 {
      MatchesAtShort(s, p, OperatorAt(35).text);
      assert LA(s, p, 0) == '*' as int && LA(s, p, 1) == '*' as int;
    } else if j == 36 {
      MatchesAtShort(s, p, OperatorAt(36).text);
      assert LA(s, p, 0) == '*' as int && LA(s, p, 1) == '=' as int;
    } else {
      MatchesAtShort(s, p, OperatorAt(37).text);
      assert LA(s, p, 0) == '*' as int;
    }
  }

  lemma TreeMatchesSlash(s: Input, p: nat)
    requires LA(s, p, 0) == '/' as int
    ensures var r := OperatorTree(s, p);
      r.errors == 0 ==> MatchesAt(s, p, OperatorAt(r.alt).text) && r.length == |OperatorAt(r.alt).text|
  {
    var r := OperatorTree(s, p);
    MatchesAtShort(s, p, OperatorAt(r.alt).text);
  }

  lemma EntryNoLongerSlash(s: Input, p: nat, j: nat)
    requires (j == 38 || j == 39) && MatchesAt(s, p, OperatorAt(j).text)
    ensures var r := OperatorTree(s, p);
      LookaheadGap(s, p)
      || (r.errors == 0 && |OperatorAt(j).text| <= r.length
          && (|OperatorAt(j).text| == r.length ==> j == r.alt))
  {
    if j == 38 {
      MatchesAtShort(s, p, OperatorAt(38).text);
      assert LA(s, p, 0) == '/' as int && LA(s, p, 1) == '=' as int;
    } else {
      MatchesAtShort(s, p, OperatorAt(39).text);
      assert LA(s, p, 0) == '/' as int;
    }
  }

  lemma TreeMatchesPercent(s: Input, p: nat)
    requires LA(s, p, 0) == '%' as int
    ensures var r := OperatorTree(s, p);
      r.errors == 0 ==> MatchesAt(s, p, OperatorAt(r.alt).text) && r.length == |OperatorAt(r.alt).text|
  {
    var r := OperatorTree(s, p);
    MatchesAtShort(s, p, OperatorAt(r.alt).text);
  }

  lemma EntryNoLongerPercent(s: Input, p: nat, j: nat)
    requires (j == 40 || j == 41) && MatchesAt(s, p, OperatorAt(j).text)
    ensures var r := OperatorTree(s, p);
      LookaheadGap(s, p)
      || (r.errors == 0 && |OperatorAt(j).text| <= r.length
          && (|OperatorAt(j).text| == r.length ==> j == r.alt))
  {
    if j == 40 {
      MatchesAtShort(s, p, OperatorAt(40).text);
      assert LA(s, p, 0) == '%' as int && LA(s, p, 1) == '=' as int;
    } else {
      MatchesAtShort(s, p, OperatorAt(41).text);
      assert LA(s, p, 0) == '%' as int;
    }
  }

  lemma TreeMatchesPlus(s: Input, p: nat)
    requires LA(s, p, 0) == '+' as int
    ensures var r := OperatorTree(s, p);
      r.errors == 0 ==> MatchesAt(s, p, OperatorAt(r.alt).text) && r.length == |OperatorAt(r.alt).text|
  {
    var r := OperatorTree(s, p);
    MatchesAtShort(s, p, OperatorAt(r.alt).text);
  }

  lemma EntryNoLongerPlus(s: Input, p: nat, j: nat)
    requires (j == 42 || j == 43 || j == 44) && MatchesAt(s, p, OperatorAt(j).text)
    ensures var r := OperatorTree(s, p);
      LookaheadGap(s, p)
      || (r.errors == 0 && |OperatorAt(j).text| <= r.length
          && (|OperatorAt(j).text| == r.length ==> j == r.alt))
  {
    if j == 42 {
      MatchesAtShort(s, p, OperatorAt(42).text);
      assert LA(s, p, 0) == '+' as int && LA(s, p, 1) == '=' as int;
    } else if j == 43 {
      MatchesAtShort(s, p, OperatorAt(43).text);
      assert LA(s, p, 0) == '+' as int && LA(s, p, 1) == '+' as int;
    } else {
      MatchesAtShort(s, p, OperatorAt(44).text);
      assert LA(s, p, 0) == '+' as int;
    }
  }

  lemma TreeMatchesMinus(s: Input, p: nat)
    requires LA(s, p, 0) == '-' as int
    ensures var r := OperatorTree(s, p);
      r.errors == 0 ==> MatchesAt(s, p, OperatorAt(r.alt).text) && r.length == |OperatorAt(r.alt).text|
  {
    var r := OperatorTree(s, p);
    MatchesAtShort(s, p, OperatorAt(r.alt).text);
  }

  lemma EntryNoLongerMinus(s: Input, p: nat, j: nat)
    requires (j == 45 || j == 46 || j == 47 || j == 48) && MatchesAt(s, p, OperatorAt(j).text)
    ensures var r := OperatorTree(s, p);
      LookaheadGap(s, p)
      || (r.errors == 0 && |OperatorAt(j).text| <= r.length
          && (|OperatorAt(j).text| == r.length ==> j == r.alt))
  {
    if j == 45 {
      MatchesAtShort(s, p, OperatorAt(45).text);
      assert LA(s, p, 0) == '-' as int && LA(s, p, 1) == '>' as int;
    } else if j == 46 {
      MatchesAtShort(s, p, OperatorAt(46).text);
      assert LA(s, p, 0) == '-' as int && LA(s, p, 1) == '=' as int;
    } else if j == 47 {
      MatchesAtShort(s, p, OperatorAt(47).text);
      assert LA(s, p, 0) == '-' as int && LA(s, p, 1) == '-' as int;
    } else {
      MatchesAtShort(s, p, OperatorAt(48).text);
      assert LA(s, p, 0) == '-' as int;
    }
  }

  lemma TreeMatchesQuestion(s: Input, p: nat)
    requires LA(s, p, 0) == '?' as int
    ensures var r := OperatorTree(s, p);
      r.errors == 0 ==> MatchesAt(s, p, OperatorAt(r.alt).text) && r.length == |OperatorAt(r.alt).text|
  {
    var c1 := LA(s, p, 1);
    if c1 == '?' as int || c1 == '.' as int {
      TreeMatchesQuestionPair(s, p);
    } else if c1 == '|' as int {
      TreeMatchesQuestionBar(s, p);
    } else {
      TreeMatchesQuestionOther(s, p);
    }
  }

  // "??=", "??" and "?.".
  lemma TreeMatchesQuestionPair(s: Input, p: nat)
    requires LA(s, p, 0) == '?' as int && (LA(s, p, 1) == '?' as int || LA(s, p, 1) == '.' as int)
    ensures var r := OperatorTree(s, p);
      r.errors == 0 ==> MatchesAt(s, p, OperatorAt(r.alt).text) && r.length == |OperatorAt(r.alt).text|
  {
    var r := OperatorTree(s, p);
    if r.alt == 49 {
      MatchesAtShort(s, p, OperatorAt(49).text);
    } else if r.alt == 50 {
      MatchesAtShort(s, p, OperatorAt(50).text);
    } else {
      MatchesAtShort(s, p, OperatorAt(51).text);
    }
  }

  // "?|>", "?|=>" and the lone '?' before '|'.
  lemma TreeMatchesQuestionBar(s: Input, p: nat)
    requires LA(s, p, 0) == '?' as int && LA(s, p, 1) == '|' as int
    ensures var r := OperatorTree(s, p);
      r.errors == 0 ==> MatchesAt(s, p, OperatorAt(r.alt).text) && r.length == |OperatorAt(r.alt).text|
  {
    var r := OperatorTree(s, p);
    if r.alt == 52 {
      MatchesAtShort(s, p, OperatorAt(52).text);
    } else if r.alt == 54 {
      MatchesAtShort(s, p, OperatorAt(54).text);
    } else {
      MatchesAtShort(s, p, OperatorAt(56).text);
    }
  }

  // "?>", "?=>" and the lone '?'.
  lemma TreeMatchesQuestionOther(s: Input, p: nat)
    requires LA(s, p, 0) == '?' as int
    requires LA(s, p, 1) != '?' as int && LA(s, p, 1) != '.' as int && LA(s, p, 1) != '|' as int
    ensures var r := OperatorTree(s, p);
      r.errors == 0 ==> MatchesAt(s, p, OperatorAt(r.alt).text) && r.length == |OperatorAt(r.alt).text|
  {
    var r := OperatorTree(s, p);
    if r.alt == 53 {
      MatchesAtShort(s, p, OperatorAt(53).text);
    } else if r.alt == 55 {
      MatchesAtShort(s, p, OperatorAt(55).text);
    } else {
      MatchesAtShort(s, p, OperatorAt(56).text);
    }
  }

  lemma EntryNoLongerQuestion(s: Input, p: nat, j: nat)
    requires (j == 49 || j == 50 || j == 51 || j == 52 || j == 53 || j == 54 || j == 55 || j == 56) && MatchesAt(s, p, OperatorAt(j).text)
    ensures var r := OperatorTree(s, p);
      LookaheadGap(s, p)
      || (r.errors == 0 && |OperatorAt(j).text| <= r.length
          && (|OperatorAt(j).text| == r.length ==> j == r.alt))
  {
    if j <= 52 {
      EntryNoLongerQuestionFirst(s, p, j);
    } else {
      EntryNoLongerQuestionRest(s, p, j);
    }
  }

  // "??=", "??", "?." and "?|>".
  lemma EntryNoLongerQuestionFirst(s: Input, p: nat, j: nat)
    requires (j == 49 || j == 50 || j == 51 || j == 52) && MatchesAt(s, p, OperatorAt(j).text)
    ensures var r := OperatorTree(s, p);
      LookaheadGap(s, p)
      || (r.errors == 0 && |OperatorAt(j).text| <= r.length
          && (|OperatorAt(j).text| == r.length ==> j == r.alt))
  {
    if j == 49 {
      MatchesAtShort(s, p, OperatorAt(49).text);
      assert LA(s, p, 0) == '?' as int && LA(s, p, 1) == '?' as int && LA(s, p, 2) == '=' as int;
    } else if j == 50 {
      MatchesAtShort(s, p, OperatorAt(50).text);
      assert LA(s, p, 0) == '?' as int && LA(s, p, 1) == '?' as int;
    } else if j == 51 {
      MatchesAtShort(s, p, OperatorAt(51).text);
      assert LA(s, p, 0) == '?' as int && LA(s, p, 1) == '.' as int;
    } else {
      MatchesAtShort(s, p, OperatorAt(52).text);
      assert LA(s, p, 0) == '?' as int && LA(s, p, 1) == '|' as int && LA(s, p, 2) == '>' as int;
    }
  }

  // "?>", "?|=>", "?=>" and "?".
  lemma EntryNoLongerQuestionRest(s: Input, p: nat, j: nat)
    requires (j == 53 || j == 54 || j == 55 || j == 56) && MatchesAt(s, p, OperatorAt(j).text)
    ensures var r := OperatorTree(s, p);
      LookaheadGap(s, p)
      || (r.errors == 0 && |OperatorAt(j).text| <= r.length
          && (|OperatorAt(j).text| == r.length ==> j == r.alt))
  {
    if j == 53 {
      MatchesAtShort(s, p, OperatorAt(53).text);
      assert LA(s, p, 0) == '?' as int && LA(s, p, 1) == '>' as int;
    } else if j == 54 {
      MatchesAtShort(s, p, OperatorAt(54).text);
      assert LA(s, p, 0) == '?' as int && LA(s, p, 1) == '|' as int && LA(s, p, 2) == '=' as int && LA(s, p, 3) == '>' as int;
    } else if j == 55 {
      MatchesAtShort(s, p, OperatorAt(55).text);
      assert LA(s, p, 0) == '?' as int && LA(s, p, 1) == '=' as int && LA(s, p, 2) == '>' as int;
    } else {
      MatchesAtShort(s, p, OperatorAt(56).text);
      assert LA(s, p, 0) == '?' as int;
    }
  }


  lemma TreeMatchesDollar(s: Input, p: nat)
    requires LA(s, p, 0) == '$' as int
    ensures var r := OperatorTree(s, p);
      r.errors == 0 ==> MatchesAt(s, p, OperatorAt(r.alt).text) && r.length == |OperatorAt(r.alt).text|
  {
    var r := OperatorTree(s, p);
    MatchesAtShort(s, p, OperatorAt(r.alt).text);
  }

  lemma EntryNoLongerDollar(s: Input, p: nat, j: nat)
    requires (j == 57) && MatchesAt(s, p, OperatorAt(j).text)
    ensures var r := OperatorTree(s, p);
      LookaheadGap(s, p)
      || (r.errors == 0 && |OperatorAt(j).text| <= r.length
          && (|OperatorAt(j).text| == r.length ==> j == r.alt))
  {
    MatchesAtShort(s, p, OperatorAt(57).text);
    assert LA(s, p, 0) == '$' as int;
  }

  lemma TreeMatchesBackslash(s: Input, p: nat)
    requires LA(s, p, 0) == '\\' as int
    ensures var r := OperatorTree(s, p);
      r.errors == 0 ==> MatchesAt(s, p, OperatorAt(r.alt).text) && r.length == |OperatorAt(r.alt).text|
  {
    var r := OperatorTree(s, p);
    MatchesAtShort(s, p, OperatorAt(r.alt).text);
  }

  lemma EntryNoLongerBackslash(s: Input, p: nat, j: nat)
    requires (j == 58) && MatchesAt(s, p, OperatorAt(j).text)
    ensures var r := OperatorTree(s, p);
      LookaheadGap(s, p)
      || (r.errors == 0 && |OperatorAt(j).text| <= r.length
          && (|OperatorAt(j).text| == r.length ==> j == r.alt))
  {
    MatchesAtShort(s, p, OperatorAt(58).text);
    assert LA(s, p, 0) == '\\' as int;
  }
}
