// What EcsLexer's Token promises, stated over the functions the class is
// proved against: numbers and their suffix symbols, keywords and the
// identifiers that are not keywords, directives and AllowPP, the choice
// between a number and an operator, the longest operator, comments with and
// without nesting, and the unrecognised character.
module EcsProperties {
  import opened Wrappers
  import opened Chars
  import opened LexerCore
  import opened NumberSyntax
  import opened EcsTokens
  import opened EcsOperators
  import opened EcsKeywords
  import opened EcsLexers

  // ---- numbers

  // The suffix symbols: "_uL" for L and U in either order, "_" when no
  // suffix letter follows the digits.
  lemma SuffixSymbols(s: Input, q: nat)
    requires q <= |s|
    ensures var c0, c1 := LA(s, q, 0), LA(s, q, 1);
      var x := SuffixAt(s, q);
      (x.symbol == "_uL" <==> (IsOneOf(c0, 'L', 'l') && IsOneOf(c1, 'U', 'u')) || (IsOneOf(c0, 'U', 'u') && IsOneOf(c1, 'L', 'l')))
      && (x.symbol == "_" <==> !(IsOneOf(c0, 'F', 'f') || IsOneOf(c0, 'D', 'd') || IsOneOf(c0, 'M', 'm')
                                 || IsOneOf(c0, 'L', 'l') || IsOneOf(c0, 'U', 'u') || IsOneOf(c0, 'Z', 'z')))
      && x.symbol in {"_", "_f", "_d", "_m", "_L", "_uL", "_u", "_z"}
  {
  }

  // A number's _textValue is its text up to the suffix, and its _value is
  // the suffix symbol there.
  lemma NumberText(s: Input, p: nat)
    requires p <= |s|
    ensures var n := NumberAt(s, p);
      var q := p + |n.text|;
      q <= |s| && n.text == s[p..q] && q == EcsBodyScan(s, p).end
      && n.value == NamedSymbol(SuffixAt(s, q).symbol) && n.end == SuffixAt(s, q).end
  {
  }

  // HexNumber reports an error after "0x" exactly when neither a hex digit
  // nor a fraction HexNumber_Test0 accepts follows; that error comes on top
  // of those of the hexadecimal rule without the check.
  lemma HexNeedsDigits(s: Input, p: nat)
    requires p + 2 <= |s|
    ensures HexMantissa(s, p).end == p + 2 <==>
              !InClass(Hex, LA(s, p, 2))
              && !(LA(s, p, 2) == '.' as int && InClass(Hex, LA(s, p, 3)) && HexNumberTest0(s, p + 3))
    ensures EcsHexNumberScan(s, p).errors ==
              (if HexMantissa(s, p).end == p + 2 then 1 else 0) + HexNumberScan(s, p).errors
  {
    var h := HexMantissa(s, p);
    if InClass(Hex, LA(s, p, 2)) {
      RunAdvances(s, p + 2, Hex);
    } else if LA(s, p, 2) == '.' as int && InClass(Hex, LA(s, p, 3)) && HexNumberTest0(s, p + 3) {
      RunAdvances(s, p + 3, Hex);
    }
    ExponentErrors(s, Mantissa(h.end, h.isFloat, 0), if h.end == p + 2 then 1 else 0, 'P', 'p');
  }

  // ---- keywords and identifiers

  // With the word t at p and no word character after it, IdOrKeyword
  // yields t's keyword, when t is one and AllowPP admits it, and hands
  // over to Id otherwise.
  lemma WordAt(s: Input, p: nat, allowPP: bool, t: string)
    requires p <= |s| && IsWordText(t) && MatchesAt(s, p, t) && !InWordSet(LA(s, p, |t|))
    ensures KeywordAt(s, p, allowPP) ==
              (if KeywordInfo(t).Some? && (allowPP || !KeywordInfo(t).value.pp) then KeywordInfo(t) else None)
  {
    WordTextAt(s, p, t);
  }

  // A keyword t at p, with no word character after it and AllowPP holding
  // for a directive, is the token Token yields there: its type and value
  // from the table, and its text alone unless the rest of the line belongs
  // to it.
  lemma KeywordToken(s: Input, p: nat, st: LexState, allowNested: bool, t: string)
    requires p <= |s| && KeywordInfo(t).Some? && MatchesAt(s, p, t) && !InWordSet(LA(s, p, |t|))
    requires p == st.allowPPAt || !KeywordInfo(t).value.pp
    ensures var k := KeywordInfo(t).value;
      var r := TokenAt(s, p, st, allowNested);
      r.Lexed? && r.errors == 0 && r.state == st
      && r.token.tokenType == k.tokenType && r.token.start == p && r.token.length >= |t|
      && (!k.restOfLine ==> r.token.length == |t| && r.token.value == k.value)
      && (k.restOfLine ==> r.token.length == LineEnd(s, p + |t|) - p
                           && r.token.value == LineText(s[p + |t|..LineEnd(s, p + |t|)]))
  {
    KeywordAtComplete(s, p, p == st.allowPPAt, t);
    assert LA(s, p, 0) == t[0] as int;
    if t[0] == '#' {
      assert LA(s, p, 1) == t[1] as int;
    }
  }

  // "in", "int" and "into" are keywords, and "as" is one.
  lemma InExample(st: LexState, allowNested: bool)
    ensures TokenAt(Units("in x"), 0, st, allowNested) == Lexed(Token(In, 0, 2, CodeSymbol("In")), 0, st)
  {
    InExampleInput();
    var s: Input := [105, 110, 32, 120];
    assert KeywordInfo("in") == Some(KeywordEntry(false, false, In, CodeSymbol("In")));
    MatchesAtShort(s, 0, "in");
    KeywordToken(s, 0, st, allowNested, "in");
  }

  lemma InExampleInput()
    ensures Units("in x") == [105, 110, 32, 120]
  {
  }

  lemma IntExample(st: LexState, allowNested: bool)
    ensures TokenAt(Units("int x"), 0, st, allowNested) == Lexed(Token(TypeKeyword, 0, 3, CodeSymbol("Int32")), 0, st)
  {
    IntExampleInput();
    var s: Input := [105, 110, 116, 32, 120];
    assert KeywordInfo("int") == Some(KeywordEntry(false, false, TypeKeyword, CodeSymbol("Int32")));
    MatchesAtShort(s, 0, "int");
    KeywordToken(s, 0, st, allowNested, "int");
  }

  lemma IntExampleInput()
    ensures Units("int x") == [105, 110, 116, 32, 120]
  {
  }

  lemma IntoExample(st: LexState, allowNested: bool)
    ensures TokenAt(Units("into"), 0, st, allowNested) == Lexed(Token(LinqKeyword, 0, 4, NamedSymbol("into")), 0, st)
  {
    IntoExampleInput();
    var s: Input := [105, 110, 116, 111];
    assert KeywordInfo("into") == Some(KeywordEntry(false, false, LinqKeyword, NamedSymbol("into")));
    MatchesAtShort(s, 0, "into");
    KeywordToken(s, 0, st, allowNested, "into");
  }

  lemma IntoExampleInput()
    ensures Units("into") == [105, 110, 116, 111]
  {
  }

  lemma AsExample(st: LexState, allowNested: bool)
    ensures TokenAt(Units("as"), 0, st, allowNested) == Lexed(Token(As, 0, 2, CodeSymbol("As")), 0, st)
  {
    AsExampleInput();
    var s: Input := [97, 115];
    assert KeywordInfo("as") == Some(KeywordEntry(false, false, As, CodeSymbol("As")));
    MatchesAtShort(s, 0, "as");
    KeywordToken(s, 0, st, allowNested, "as");
  }

  lemma AsExampleInput()
    ensures Units("as") == [97, 115]
  {
  }

  // A word that runs on past a keyword is an identifier: "inty" is none.
  lemma IntyExample(st: LexState, allowNested: bool)
    ensures TokenAt(Units("inty"), 0, st, allowNested) == Delegated(IdRule, Id)
  {
    IntyExampleInput();
    var s: Input := [105, 110, 116, 121];
    assert KeywordInfo("inty") == None;
    MatchesAtShort(s, 0, "inty");
    WordAt(s, 0, 0 == st.allowPPAt, "inty");
  }

  lemma IntyExampleInput()
    ensures Units("inty") == [105, 110, 116, 121]
  {
  }

  // ---- directives and AllowPP

  // A '#' word away from _allowPPAt is never a directive: Token hands it to
  // Id (a Shebang aside).
  lemma DirectiveNeedsAllowPP(s: Input, p: nat, st: LexState, allowNested: bool)
    requires p <= |s| && LA(s, p, 0) == '#' as int && p != st.allowPPAt
    requires !(p == 0 && LA(s, p, 1) == '!' as int)
    ensures TokenAt(s, p, st, allowNested) == Delegated(IdRule, Id)
  {
    DirectivesNeedAllowPP(s, p);
  }

  // Newline moves _allowPPAt to the start of the next line.
  lemma NewlineAllowsPP(s: Input, p: nat, st: LexState, allowNested: bool)
    requires p <= |s| && IsNewlineChar(LA(s, p, 0))
    ensures var r := TokenAt(s, p, st, allowNested);
      r.Lexed? && r.token.tokenType == TokenType.Newline && r.errors == 0
      && r.token.length >= 1 && r.state.allowPPAt == p + r.token.length
  {
  }

  // "#if" after a newline is a directive: the newline token moves
  // _allowPPAt to the '#', where "#if" is recognised.
  lemma NewlineBeforeDirective(allowNested: bool)
    ensures TokenAt(Units("a\n#if b"), 1, LexState(0, 0), allowNested)
            == Lexed(Token(TokenType.Newline, 1, 1, WhitespaceTag), 0, LexState(2, 0))
  {
    assert NewlineEnd(Units("a\n#if b"), 1) == 2;
  }

  lemma DirectiveAfterNewline(allowNested: bool)
    ensures TokenAt(Units("a\n#if b"), 2, LexState(2, 0), allowNested)
            == Lexed(Token(PPif, 2, 3, CodeSymbol("PPIf")), 0, LexState(2, 0))
  {
    var s := Units("a\n#if b");
    assert KeywordInfo("#if") == Some(KeywordEntry(true, false, PPif, CodeSymbol("PPIf")));
    MatchesAtShort(s, 2, "#if");
    KeywordToken(s, 2, LexState(2, 0), allowNested, "#if");
  }

  // "#if" after a space on the same line is not.
  lemma DirectiveMidLine(allowNested: bool)
    ensures TokenAt(Units("a #if b"), 2, LexState(0, 0), allowNested) == Delegated(IdRule, Id)
  {
    DirectiveNeedsAllowPP(Units("a #if b"), 2, LexState(0, 0), allowNested);
  }

  // ---- the choice Token makes

  // '.' starts a number when a digit follows it and an operator otherwise.
  lemma DotNumberOrOperator(s: Input, p: nat)
    requires p <= |s| && LA(s, p, 0) == '.' as int
    ensures Dispatch(s, p) == NumberRule <==> IsDecDigit(LA(s, p, 1))
    ensures Dispatch(s, p) == NumberRule || Dispatch(s, p) == OperatorRule
  {
  }

  // "#!" is a Shebang only at the very start of the input, and the Shebang
  // token takes the first line with its newline.
  lemma ShebangOnlyFirst(s: Input, p: nat, st: LexState, allowNested: bool)
    requires p <= |s|
    ensures Dispatch(s, p) == ShebangRule <==> p == 0 && LA(s, 0, 0) == '#' as int && LA(s, 0, 1) == '!' as int
    ensures Dispatch(s, p) == ShebangRule ==>
              var r := TokenAt(s, p, st, allowNested);
              r.Lexed? && r.token == Token(TokenType.Shebang, 0, ShebangEnd(s, 0), WhitespaceTag) && r.errors == 0
  {
  }

  // An unrecognised character becomes an Unknown token of one character
  // with one error, "Unrecognized token".
  lemma UnknownChar(s: Input, p: nat, st: LexState, allowNested: bool)
    requires p < |s| && Dispatch(s, p) == ErrorRule
    ensures TokenAt(s, p, st, allowNested) == Lexed(Token(Unknown, p, 1, NoValue), 1, st)
  {
  }

  // A control character, and a quote that the line ends after, are
  // unrecognised.
  lemma UnknownExamples()
    ensures Dispatch([1], 0) == ErrorRule
    ensures Dispatch(Units("\"\n"), 0) == ErrorRule
    ensures Dispatch(Units("'"), 0) == ErrorRule
  {
  }

  // ---- operators

  // Every operator character Token dispatches on starts an operator, so
  // Operator reports no error there, the lookahead gap aside; the token is
  // the longest operator at p.
  lemma OperatorToken(s: Input, p: nat, st: LexState, allowNested: bool)
    requires p <= |s| && Dispatch(s, p) == OperatorRule && !LookaheadGap(s, p)
    ensures var r := TokenAt(s, p, st, allowNested);
      r.Lexed? && r.errors == 0 && r.state == st
      && exists j :: 0 <= j < OperatorCount && LongestAt(s, p, j)
           && r.token == Token(OperatorAt(j).tokenType, p, |OperatorAt(j).text|, OperatorAt(j).value)
  {
    OperatorLongestMatch(s, p);
    var j := SingleCharOperator(LA(s, p, 0));
    MatchesAtShort(s, p, OperatorAt(j).text);
    assert MatchesAt(s, p, OperatorAt(j).text);
  }

  // The one-character operator that starts with c.
  function SingleCharOperator(c: int): (j: nat)
    requires IsOperatorStart(c) || c == '.' as int || c == '/' as int || c == '\\' as int
    ensures j < OperatorCount && |OperatorAt(j).text| == 1 && OperatorAt(j).text[0] as int == c
  {
    if c == '.' as int then 3
    else if c == '>' as int then 6
    else if c == '<' as int then 10
    else if c == '&' as int then 13
    else if c == '|' as int then 18
    else if c == '^' as int then 21
    else if c == ':' as int then 25
    else if c == '=' as int then 29
    else if c == '!' as int then 31
    else if c == '~' as int then 33
    else if c == '*' as int then 37
    else if c == '/' as int then 39
    else if c == '%' as int then 41
    else if c == '+' as int then 44
    else if c == '-' as int then 48
    else if c == '?' as int then 56
    else if c == '$' as int then 57
    else 58
  }

  // The dot operators and the '>' operators.
  lemma OperatorExamples()
    ensures OperatorTree(Units("..."), 0) == Took(0, 3) && OperatorAt(0).value == CodeSymbol("DotDotDot")
    ensures OperatorTree(Units("..<"), 0) == Took(1, 3) && OperatorAt(1).value == CodeSymbol("DotDot")
    ensures OperatorTree(Units("..x"), 0) == Took(2, 2) && OperatorAt(2).value == CodeSymbol("DotDot")
    ensures OperatorTree(Units(".x"), 0) == Took(3, 1) && OperatorAt(3).value == CodeSymbol("Dot")
    ensures OperatorTree(Units(">>="), 0) == Took(4, 3) && OperatorAt(4).value == CodeSymbol("ShrAssign")
    ensures OperatorTree(Units(">=x"), 0) == Took(5, 2) && OperatorAt(5).value == CodeSymbol("GE")
    ensures OperatorTree(Units(">>x"), 0) == OperatorTree(Units(">>x"), 1) == Took(6, 1)
  {
    DotDotDotExample();
    DotDotLessExample();
    DotDotExample();
    DotExample();
    ShrAssignExample();
    GreaterEqualExample();
    GreaterGreaterExample();
  }

  lemma DotDotDotExample()
    ensures OperatorTree(Units("..."), 0) == Took(0, 3) && OperatorAt(0).value == CodeSymbol("DotDotDot")
  {
  }

  lemma DotDotLessExample()
    ensures OperatorTree(Units("..<"), 0) == Took(1, 3) && OperatorAt(1).value == CodeSymbol("DotDot")
  {
  }

  lemma DotDotExample()
    ensures OperatorTree(Units("..x"), 0) == Took(2, 2) && OperatorAt(2).value == CodeSymbol("DotDot")
  {
  }

  lemma DotExample()
    ensures OperatorTree(Units(".x"), 0) == Took(3, 1) && OperatorAt(3).value == CodeSymbol("Dot")
  {
  }

  lemma ShrAssignExample()
    ensures OperatorTree(Units(">>="), 0) == Took(4, 3) && OperatorAt(4).value == CodeSymbol("ShrAssign")
  {
  }

  lemma GreaterEqualExample()
    ensures OperatorTree(Units(">=x"), 0) == Took(5, 2) && OperatorAt(5).value == CodeSymbol("GE")
  {
  }

  lemma GreaterGreaterExample()
    ensures OperatorTree(Units(">>x"), 0) == OperatorTree(Units(">>x"), 1) == Took(6, 1)
  {
  }

  // ---- comments

  // "*/" at i.
  predicate IsCloseAt(s: Input, i: int)
  {
    LA(s, i, 0) == '*' as int && LA(s, i, 1) == '/' as int
  }

  // Without nesting, a comment's body runs to the first "*/", or to the end
  // of the input when there is none, and reports nothing.
  lemma {:induction false} BodyWithoutNesting(s: Input, q: nat, allowPPAt: nat)
    requires q <= |s|
    ensures var b := CommentBody(s, q, false, allowPPAt);
      b.errors == 0
      && (forall i :: q <= i < b.end ==> !IsCloseAt(s, i))
      && (b.end < |s| ==> IsCloseAt(s, b.end))
    decreases |s| - q
  {
    var c := LA(s, q, 0);
    if c == '*' as int {
      if LA(s, q, 1) != '/' as int {
        BodyWithoutNesting(s, q + 1, allowPPAt);
      }
    } else if c == -1 {
    } else if IsNewlineChar(c) {
      var e := NewlineEnd(s, q);
      assert q < e && forall i :: q <= i < e ==> IsNewlineChar(s[i]);
      BodyWithoutNesting(s, e, e);
    } else {
      BodyWithoutNesting(s, q + 1, allowPPAt);
    }
  }

  // Without AllowNestedComments, a comment ends just after the first "*/"
  // after its "/*", a "/*" inside it being plain text; an unclosed comment
  // runs to the end of the input with the two errors of the closing Match.
  lemma CommentWithoutNesting(s: Input, p: nat, allowPPAt: nat)
    requires p + 2 <= |s|
    ensures var c := CommentFrom(s, p, false, allowPPAt);
      ((exists i :: p + 2 <= i < |s| && IsCloseAt(s, i)) ==>
         c.errors == 0 && p + 4 <= c.end && IsCloseAt(s, c.end - 2)
         && forall i :: p + 2 <= i < c.end - 2 ==> !IsCloseAt(s, i))
      && (!(exists i :: p + 2 <= i < |s| && IsCloseAt(s, i)) ==> c.end == |s| && c.errors == 2)
  {
    BodyWithoutNesting(s, p + 2, allowPPAt);
    var b := CommentBody(s, p + 2, false, allowPPAt);
    if b.end < |s| {
      assert IsCloseAt(s, b.end);
    } else {
      assert forall i :: p + 2 <= i < |s| ==> !IsCloseAt(s, i);
    }
  }

  // With AllowNestedComments, a body that ends on "*/" without error has
  // taken as many "*/" as "/*", reading them as pairs, and never more "*/"
  // than "/*" at any point before.
  lemma {:induction false} NestedBody(s: Input, q: nat, a: nat)
    requires q <= |s|
    ensures var b := CommentBody(s, q, true, a);
      b.errors == 0 && IsCloseAt(s, b.end) ==>
        Reaches(s, q, b.end) && PairDepth(s, q, b.end) == 0
        && forall i :: q <= i <= b.end ==> PairDepth(s, q, i) >= 0
    decreases |s| - q, 1
  {
    var c := LA(s, q, 0);
    var b := CommentBody(s, q, true, a);
    if b.errors == 0 && IsCloseAt(s, b.end) && b.end > q {
      if c == '/' as int && LA(s, q, 1) == '*' as int {
        var n := CommentFrom(s, q, true, a);
        NestedComment(s, q, a);
        NestedBody(s, n.end, n.allowPPAt);
        OpenStep(s, q);
        ReachesTrans(s, q, n.end, b.end);
        DepthSplit(s, q, n.end, b.end);
        forall i | q <= i <= b.end
          ensures PairDepth(s, q, i) >= 0
        {
          if n.end <= i {
            DepthSplit(s, q, n.end, i);
          }
        }
      } else if IsNewlineChar(c) {
        var e := NewlineEnd(s, q);
        SingleStep(s, q);
        if e == q + 2 {
          SingleStep(s, q + 1);
          ReachesTrans(s, q, q + 1, e);
        }
        NestedBody(s, e, e);
        ReachesTrans(s, q, e, b.end);
        DepthSplit(s, q, e, b.end);
        forall i | q <= i <= b.end
          ensures PairDepth(s, q, i) >= 0
        {
          if e <= i {
            DepthSplit(s, q, e, i);
          }
        }
      } else {
        SingleStep(s, q);
        NestedBody(s, q + 1, a);
        ReachesTrans(s, q, q + 1, b.end);
      }
    }
  }

  // With AllowNestedComments, a comment that closes without error ends on
  // "*/" where the depth of "/*" and "*/" first returns to zero: inside it
  // the depth stays at one or more, so a "*/" there closes a nested "/*"
  // and does not end the comment.
  lemma {:induction false} NestedComment(s: Input, p: nat, a: nat)
    requires p + 2 <= |s| && LA(s, p, 0) == '/' as int && LA(s, p, 1) == '*' as int
    ensures var c := CommentFrom(s, p, true, a);
      c.errors == 0 ==>
        IsCloseAt(s, c.end - 2) && Reaches(s, p, c.end) && PairDepth(s, p, c.end) == 0
        && (forall i :: p + 2 <= i < c.end ==> PairDepth(s, p, i) >= 1)
        && forall i :: p + 2 <= i < c.end - 2 && IsCloseAt(s, i) && Reaches(s, p, i) ==> PairDepth(s, p, i) >= 2
    decreases |s| - p, 0
  {
    var b := CommentBody(s, p + 2, true, a);
    var c := CommentFrom(s, p, true, a);
    if c.errors == 0 {
      assert IsCloseAt(s, b.end) && c.end == b.end + 2;
      NestedBody(s, p + 2, a);
      OpenStep(s, p);
      CloseStep(s, b.end);
      ReachesTrans(s, p, p + 2, b.end);
      ReachesTrans(s, p, b.end, c.end);
      DepthSplit(s, p + 2, b.end, c.end);
      forall i | p + 2 <= i < c.end
        ensures PairDepth(s, p, i) >= 1
      {
        if b.end < i {
          DepthSplit(s, p + 2, b.end, i);
        }
      }
      forall i | p + 2 <= i < c.end - 2 && IsCloseAt(s, i) && Reaches(s, p, i)
        ensures PairDepth(s, p, i) >= 2
      {
        CloseStep(s, i);
        DepthSplit(s, p, i, i + 2);
      }
    }
  }

  // "/*/**/*/" is one comment with nesting, and "/*/**/" followed by "*/"
  // without.
  lemma NestingExamples(st: LexState)
    ensures TokenAt(Units("/*/**/*/"), 0, st, true) == Lexed(Token(TokenType.MLComment, 0, 8, WhitespaceTag), 0, st)
    ensures TokenAt(Units("/*/**/*/"), 0, st, false) == Lexed(Token(TokenType.MLComment, 0, 6, WhitespaceTag), 0, st)
  {
    NestedExampleDispatch();
    NestedExampleRun(st.allowPPAt);
    FlatExampleRun(st.allowPPAt);
  }

  lemma NestedExampleText()
    ensures Units("/*/**/*/") == [47, 42, 47, 42, 42, 47, 42, 47]
  {
  }

  lemma NestedExampleDispatch()
    ensures Dispatch(Units("/*/**/*/"), 0) == MLCommentRule
  {
    NestedExampleText();
  }

  lemma NestedExampleRun(a: nat)
    ensures CommentFrom(Units("/*/**/*/"), 0, true, a) == CommentRun(8, 0, a)
  {
    NestedExampleText();
    var s: Input := [47, 42, 47, 42, 42, 47, 42, 47];
    assert CommentBody(s, 4, true, a) == CommentRun(4, 0, a);
    assert CommentFrom(s, 2, true, a) == CommentRun(6, 0, a);
    assert CommentBody(s, 6, true, a) == CommentRun(6, 0, a);
    assert CommentBody(s, 2, true, a) == CommentRun(6, 0, a);
  }

  lemma FlatExampleRun(a: nat)
    ensures CommentFrom(Units("/*/**/*/"), 0, false, a) == CommentRun(6, 0, a)
  {
    NestedExampleText();
    var s: Input := [47, 42, 47, 42, 42, 47, 42, 47];
    assert CommentBody(s, 4, false, a) == CommentRun(4, 0, a);
    assert LA(s, 3, 0) == '*' as int && LA(s, 3, 1) != '/' as int;
    assert CommentBody(s, 3, false, a) == CommentRun(4, 0, a);
    assert LA(s, 2, 0) == '/' as int && !IsNewlineChar(LA(s, 2, 0));
    assert CommentBody(s, 2, false, a) == CommentRun(4, 0, a);
  }

  // ---- token extent

  // A number takes at least its first character.
  lemma NumberAdvances(s: Input, p: nat)
    requires p < |s| && Dispatch(s, p) == NumberRule
    ensures NumberAt(s, p).end > p
  {
    if BaseAt(s, p) == 10 {
      if LA(s, p, 0) == '.' as int {
        assert DecMantissa(s, p).end >= p + 1;
      } else {
        RunAdvances(s, p, Dec);
        assert DecMantissa(s, p).end >= DigitsEnd(s, p, Dec);
      }
    }
  }

  // A keyword takes at least its text.
  lemma IdOrKeywordAdvances(s: Input, p: nat, st: LexState)
    requires p <= |s| && IdOrKeywordAt(s, p, st).Lexed?
    ensures var r := IdOrKeywordAt(s, p, st);
      r.token.start == p && r.token.length >= 1 && p + r.token.length <= |s|
  {
    KeywordAtSound(s, p, p == st.allowPPAt);
  }

  // Every token Token yields starts at p, is inside the input, and, before
  // the end of the input, takes at least one character.
  lemma TokenExtent(s: Input, p: nat, st: LexState, allowNested: bool)
    requires p <= |s| && TokenAt(s, p, st, allowNested).Lexed?
    ensures var r := TokenAt(s, p, st, allowNested);
      r.token.start == p && p + r.token.length <= |s| && (p < |s| ==> r.token.length >= 1)
  {
    DispatchSeen(s, p);
    var rule := Dispatch(s, p);
    if rule == NumberRule {
      NumberAdvances(s, p);
    } else if rule == IdRule {
      IdOrKeywordAdvances(s, p, st);
    } else if rule == OperatorRule {
      OperatorInside(s, p);
      if LookaheadGap(s, p) {
        OperatorLookaheadGap(s, p);
      } else {
        OperatorToken(s, p, st, allowNested);
      }
    } else {
      RuleExtent(rule, s, p, st, allowNested);
    }
  }

  // TokenExtent for the rules other than Number, Id and Operator.
  lemma RuleExtent(r: Rule, s: Input, p: nat, st: LexState, allowNested: bool)
    requires RuleFits(r, s, p) && r != NumberRule && r != IdRule && r != OperatorRule
    requires RuleLexed(r, s, p, st, allowNested).Lexed?
    ensures var l := RuleLexed(r, s, p, st, allowNested);
      l.token.start == p && p + l.token.length <= |s| && (p < |s| ==> l.token.length >= 1)
  {
  }
}
