// Properties of the LES lexer's rules: every token NextToken produces is
// non-empty and inside the input (the Debug.Assert after the dispatch),
// which characters start which rule, what makes a number a float, and how
// a line of a multi-line comment ends.
module LesProperties {
  import opened Chars
  import opened LexerCore
  import opened NumberSyntax
  import opened LesLexers

  // ---- token extent

  // A number that starts the way NextToken requires takes at least one
  // character.
  lemma NumberAdvances(s: Input, p: nat, isLetter: int -> bool)
    requires p < |s| && Dispatch(s, p, isLetter) == NumberRule
    ensures NumberAt(s, p).end > p
  {
    if LA(s, p, 0) != '-' as int && BaseAt(s, p) == 10 {
      if LA(s, p, 0) == '.' as int {
        assert DecMantissa(s, p).end >= p + 1;
      } else {
        RunAdvances(s, p, Dec);
        assert DecMantissa(s, p).end >= DigitsEnd(s, p, Dec);
      }
    }
  }

  // NextToken's Debug.Assert(InputPosition > _startPosition): every token
  // starts where NextToken was called, is non-empty and ends inside the
  // input.
  lemma TokenExtent(s: Input, p: nat, isLetter: int -> bool)
    requires p <= |s| && TokenAt(s, p, isLetter).Lexed?
    ensures TokenAt(s, p, isLetter).token.start == p
    ensures TokenAt(s, p, isLetter).token.length >= 1
    ensures p + TokenAt(s, p, isLetter).token.length <= |s|
  {
    if Dispatch(s, p, isLetter) == NumberRule {
      NumberAdvances(s, p, isLetter);
    }
  }

  // NextToken yields nothing exactly at the end of the input, and a
  // delegated rule starts where NextToken was called.
  lemma TokenAtEnd(s: Input, p: nat, isLetter: int -> bool)
    requires p <= |s|
    ensures TokenAt(s, p, isLetter).NoToken? <==> p == |s|
    ensures TokenAt(s, p, isLetter).Delegated? ==> TokenAt(s, p, isLetter).start == p
    ensures p < |s| ==> Dispatch(s, p, isLetter) != EOFRule
  {
  }

  // A shebang is recognised only at the very start of the input.
  lemma ShebangOnlyFirst(s: Input, p: nat, isLetter: int -> bool)
    requires p <= |s|
    ensures (TokenAt(s, p, isLetter).Lexed? && TokenAt(s, p, isLetter).token.tokenType == Shebang)
            <==> (p == 0 && |s| >= 2 && s[0] == '#' as int && s[1] == '!' as int)
  {
  }

  // NextToken starts a number on a digit, on '.' before a digit, and on
  // '-' before either; every other '-' and '.' is an operator.
  lemma NumberStart(s: Input, p: nat, isLetter: int -> bool)
    requires p < |s|
    ensures Dispatch(s, p, isLetter) == NumberRule <==>
              IsDecDigit(s[p])
              || (s[p] == '.' as int && IsDecDigit(LA(s, p, 1)))
              || (s[p] == '-' as int && (IsDecDigit(LA(s, p, 1)) || (LA(s, p, 1) == '.' as int && IsDecDigit(LA(s, p, 2)))))
    ensures (s[p] == '-' as int || s[p] == '.' as int) && Dispatch(s, p, isLetter) != NumberRule
            ==> Dispatch(s, p, isLetter) == OperatorRule
  {
  }

  lemma BodyFloat(s: Input, q: nat)
    requires q <= |s|
    ensures BodyScan(s, q).isFloat <==> HasMark(s, q, BodyScan(s, q).end, BaseAt(s, q))
  {
    var base := BaseAt(s, q);
    if base == 16 {
      HexMantissaFloat(s, q);
      ExponentFloat(s, q, HexMantissa(s, q), 'P', 'p', 16);
    } else if base == 2 {
      DecMantissaFloat(s, q + 2, 2);
      var m := DecMantissa(s, q + 2);
      assert m.isFloat <==> HasMark(s, q, m.end, 2) by {
        assert !FloatMark(s[q], 2) && !FloatMark(s[q + 1], 2);
        if HasMark(s, q, m.end, 2) {
          var i :| q <= i < m.end && FloatMark(s[i], 2);
          assert i >= q + 2;
        }
        if HasMark(s, q + 2, m.end, 2) {
          var i :| q + 2 <= i < m.end && FloatMark(s[i], 2);
          assert q <= i;
        }
      }
      ExponentFloat(s, q, m, 'P', 'p', 2);
    } else {
      DecMantissaFloat(s, q, 10);
      ExponentFloat(s, q, DecMantissa(s, q), 'E', 'e', 10);
    }
  }

  // Number's _isFloat: a fraction, an exponent or an F, D or M suffix.
  lemma NumberFloat(s: Input, p: nat)
    requires p <= |s|
    ensures var r := NumberAt(s, p);
            var q := if LA(s, p, 0) == '-' as int then p + 1 else p;
            r.isFloat <==> IsFloatSuffix(r.suffix) || HasMark(s, q, r.numberEnd, r.numberBase)
  {
    var q := if LA(s, p, 0) == '-' as int then p + 1 else p;
    BodyFloat(s, q);
  }

  // Number's _isNegative and _numberBase.
  lemma NumberSignAndBase(s: Input, p: nat)
    requires p <= |s|
    ensures NumberAt(s, p).isNegative <==> LA(s, p, 0) == '-' as int
    ensures var q := if LA(s, p, 0) == '-' as int then p + 1 else p;
            (NumberAt(s, p).numberBase == 16 <==> LA(s, q, 0) == '0' as int && IsOneOf(LA(s, q, 1), 'X', 'x'))
            && (NumberAt(s, p).numberBase == 2 <==> LA(s, q, 0) == '0' as int && IsOneOf(LA(s, q, 1), 'B', 'b'))
  {
  }

  // ---- multi-line comments

  // The loop of MLCommentLine never takes a '*' that a '/' follows as
  // match4, so its Check never fails; it never passes a newline; and a
  // non-negative nesting level stays non-negative.
  lemma {:induction false} CommentLineLoopFacts(s: Input, q: nat, nested: int)
    requires q <= |s|
    ensures CommentLineLoop(s, q, nested).errors == 0
    ensures forall i :: q <= i < CommentLineLoop(s, q, nested).stop ==> !IsNewlineChar(s[i])
    ensures nested >= 0 ==> CommentLineLoop(s, q, nested).nested >= 0
    decreases |s| - q
  {
    var c := LA(s, q, 0);
    var c1 := LA(s, q, 1);
    if c == '*' as int {
      if nested > 0 && c1 == '/' as int {
        CommentLineLoopFacts(s, q + 2, nested - 1);
      } else if (nested > 0 && c1 != -1) || (nested <= 0 && c1 != -1 && c1 != '/' as int) {
        CommentLineLoopFacts(s, q + 1, nested);
      }
    } else if c == '/' as int {
      if c1 == '*' as int {
        CommentLineLoopFacts(s, q + 2, nested + 1);
      } else {
        CommentLineLoopFacts(s, q + 1, nested);
      }
    } else if !(c == -1 || IsNewlineChar(c)) {
      CommentLineLoopFacts(s, q + 1, nested);
    }
  }

  // MLCommentLine returns false exactly when the line ended in a newline,
  // which it takes; when it returns true with no error the line ends with
  // "*/" and holds no newline.
  lemma CommentLineEnds(s: Input, p: nat, nested: int)
    requires p <= |s|
    ensures var r := CommentLineAt(s, p, nested);
            !r.closed <==> IsNewlineChar(LA(s, CommentLineLoop(s, p, nested).stop, 0))
    ensures var r := CommentLineAt(s, p, nested);
            !r.closed ==> r.errors == 0 && p < r.end && IsNewlineChar(s[r.end - 1])
    ensures var r := CommentLineAt(s, p, nested);
            r.closed && r.errors == 0 ==>
              p + 2 <= r.end && s[r.end - 2] == '*' as int && s[r.end - 1] == '/' as int
              && forall i :: p <= i < r.end ==> !IsNewlineChar(s[i])
    ensures nested >= 0 ==> CommentLineAt(s, p, nested).nested >= 0
  {
    CommentLineLoopFacts(s, p, nested);
  }

  // From a level n >= 0, the loop of MLCommentLine reads "/*" and "*/" as
  // pairs: it ends at level n plus the depth of the text it took, and that
  // level never went below zero on the way, so every "*/" it took closed a
  // "/*" (a "*/" at level zero ends the loop instead).
  lemma {:induction false} CommentLineLevel(s: Input, q: nat, n: int)
    requires q <= |s| && n >= 0
    ensures var r := CommentLineLoop(s, q, n);
            Reaches(s, q, r.stop) && r.nested == n + PairDepth(s, q, r.stop)
    ensures var r := CommentLineLoop(s, q, n);
            forall i :: q <= i <= r.stop ==> n + PairDepth(s, q, i) >= 0
    decreases |s| - q
  {
    var c := LA(s, q, 0);
    var c1 := LA(s, q, 1);
    var r := CommentLineLoop(s, q, n);
    if r.stop == q {
    } else if c == '*' as int && n > 0 && c1 == '/' as int {
      CloseStep(s, q);
      CommentLineLevel(s, q + 2, n - 1);
    } else if c == '/' as int && c1 == '*' as int {
      OpenStep(s, q);
      CommentLineLevel(s, q + 2, n + 1);
    } else {
      SingleStep(s, q);
      CommentLineLevel(s, q + 1, n);
    }
  }

  // The loop of MLCommentLine stops on "*/" only at a level of zero or less.
  lemma {:induction false} CommentLineStopsOnClose(s: Input, q: nat, n: int)
    requires q <= |s|
    ensures var r := CommentLineLoop(s, q, n);
            LA(s, r.stop, 0) == '*' as int && LA(s, r.stop, 1) == '/' as int ==> r.nested <= 0
    decreases |s| - q
  {
    var c := LA(s, q, 0);
    var c1 := LA(s, q, 1);
    if c == '*' as int {
      if n > 0 && c1 == '/' as int {
        CommentLineStopsOnClose(s, q + 2, n - 1);
      } else if c1 != -1 && !(n <= 0 && c1 == '/' as int) {
        CommentLineStopsOnClose(s, q + 1, n);
      }
    } else if c == '/' as int {
      if c1 == '*' as int {
        CommentLineStopsOnClose(s, q + 2, n + 1);
      } else {
        CommentLineStopsOnClose(s, q + 1, n);
      }
    } else if !(c == -1 || IsNewlineChar(c)) {
      CommentLineStopsOnClose(s, q + 1, n);
    }
  }

  // A line of a comment that closes without error closes at level zero:
  // the text before its final "*/" holds exactly n more "*/" than "/*", and
  // no earlier point of it is more than n "*/" ahead.
  lemma CommentLineClosesAtZero(s: Input, p: nat, n: int)
    requires p <= |s| && n >= 0
    ensures var r := CommentLineAt(s, p, n);
            var stop := CommentLineLoop(s, p, n).stop;
            r.closed && r.errors == 0 ==>
              r.nested == 0 && r.end == stop + 2 && n + PairDepth(s, p, stop) == 0
              && forall i :: p <= i <= stop ==> n + PairDepth(s, p, i) >= 0
  {
    CommentLineLoopFacts(s, p, n);
    CommentLineStopsOnClose(s, p, n);
    CommentLineLevel(s, p, n);
  }

  // The body loop of MLComment stops at the end of the input or at a '*'
  // that the end or a '/' follows.
  lemma {:induction false} CommentBodyStop(s: Input, q: nat)
    requires q <= |s|
    ensures var e := CommentBody(s, q).end;
            LA(s, e, 0) == -1 || (LA(s, e, 0) == '*' as int && (LA(s, e, 1) == -1 || LA(s, e, 1) == '/' as int))
    decreases |s| - q
  {
    var c := LA(s, q, 0);
    if c == '*' as int {
      if !(LA(s, q, 1) == -1 || LA(s, q, 1) == '/' as int) {
        CommentBodyStop(s, q + 1);
      }
    } else if c == -1 {
    } else if c == '/' as int && LA(s, q, 1) == '*' as int {
      CommentBodyStop(s, CommentFrom(s, q).end);
    } else if IsNewlineChar(c) {
      CommentBodyStop(s, NewlineEnd(s, q));
    } else {
      CommentBodyStop(s, q + 1);
    }
  }

  // A multi-line comment without errors ends with "*/"; one whose body runs
  // to the end of the input reports both failed Matches.
  lemma CommentCloses(s: Input, p: nat)
    requires p + 2 <= |s|
    ensures var r := CommentFrom(s, p);
            r.errors == 0 ==> s[r.end - 2] == '*' as int && s[r.end - 1] == '/' as int
    ensures CommentBody(s, p + 2).end == |s| ==> CommentFrom(s, p).errors >= 2
    ensures CommentBody(s, p + 2).end == |s| - 1 ==> CommentFrom(s, p).errors == CommentBody(s, p + 2).errors + 1
    ensures CommentBody(s, p + 2).end < |s| - 1 ==> CommentFrom(s, p).errors == CommentBody(s, p + 2).errors
  {
    CommentBodyStop(s, p + 2);
  }
}
