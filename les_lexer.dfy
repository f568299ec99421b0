// The LES lexer's recognition rules: number syntax (base, fraction,
// exponent, suffix), operators, comments, and the choice NextToken makes
// from the lookahead. Each rule is a function of the input and a start
// position. The LesLexer class runs the rules over a cursor, updating the
// fields the generated code updates, and each method is proved to do what
// the function says.
module LesLexers {
  import opened Chars
  import opened LexerCore
  import opened NumberSyntax

  // ---- numbers

  datatype TypeSuffix = NoSuffix | SuffixF | SuffixD | SuffixM | SuffixL | SuffixU | SuffixUL

  // `( [Ff] | [Dd] | [Mm] | [Ll] ([Uu])? | [Uu] ([Ll])? )?` at q.
  datatype SuffixScan = SuffixScan(suffix: TypeSuffix, end: nat)

  function SuffixAt(s: Input, q: nat): (r: SuffixScan)
    requires q <= |s|
    ensures q <= r.end <= q + 2 && r.end <= |s|
    ensures r.suffix == NoSuffix <==> r.end == q
    ensures r.suffix == SuffixUL <==> r.end == q + 2
  {
    var c := LA(s, q, 0);
    if IsOneOf(c, 'F', 'f') then SuffixScan(SuffixF, q + 1)
    else if IsOneOf(c, 'D', 'd') then SuffixScan(SuffixD, q + 1)
    else if IsOneOf(c, 'M', 'm') then SuffixScan(SuffixM, q + 1)
    else if IsOneOf(c, 'L', 'l') then
      (if IsOneOf(LA(s, q, 1), 'U', 'u') then SuffixScan(SuffixUL, q + 2) else SuffixScan(SuffixL, q + 1))
    else if IsOneOf(c, 'U', 'u') then
      (if IsOneOf(LA(s, q, 1), 'L', 'l') then SuffixScan(SuffixUL, q + 2) else SuffixScan(SuffixU, q + 1))
    else SuffixScan(NoSuffix, q)
  }

  predicate IsFloatSuffix(t: TypeSuffix)
  {
    t == SuffixF || t == SuffixD || t == SuffixM
  }

  // What Number leaves in the lexer: the end of the token, the end of the
  // digits (numberEndPosition), and the fields _isFloat, _isNegative,
  // _numberBase and _typeSuffix.
  datatype NumberScan = NumberScan(
    end: nat, numberEnd: nat, isFloat: bool, isNegative: bool,
    numberBase: nat, suffix: TypeSuffix, errors: nat)

  function NumberAt(s: Input, p: nat): (r: NumberScan)
    requires p <= |s|
    ensures p <= r.numberEnd <= r.end <= |s|
  {
    var neg := LA(s, p, 0) == '-' as int;
    var q := if neg then p + 1 else p;
    var m := BodyScan(s, q);
    var x := SuffixAt(s, m.end);
    NumberScan(x.end, m.end, m.isFloat || IsFloatSuffix(x.suffix), neg, BaseAt(s, q), x.suffix, m.errors)
  }

  // NumberAt at p, with the digits starting at q, after the optional '-'.
  lemma NumberAtParts(s: Input, p: nat, q: nat)
    requires p <= q <= |s| && q == (if LA(s, p, 0) == '-' as int then p + 1 else p)
    ensures var m := BodyScan(s, q); var x := SuffixAt(s, m.end);
      NumberAt(s, p) == NumberScan(x.end, m.end, m.isFloat || IsFloatSuffix(x.suffix), q == p + 1,
                                   BaseAt(s, q), x.suffix, m.errors)
  {
  }

  // `( HexNumber / BinNumber / DecNumber )` at q.
  function BodyScan(s: Input, q: nat): (m: Mantissa)
    requires q <= |s|
    ensures q <= m.end <= |s|
  {
    var base := BaseAt(s, q);
    if base == 16 then HexNumberScan(s, q) else if base == 2 then BinNumberScan(s, q) else DecNumberScan(s, q)
  }

  // ---- operators and comments

  // The characters of Operator: ! $ % & * + - . / : < = > ? ^ | ~
  predicate IsOpChar(c: int)
  {
    c == '!' as int || c == '$' as int || c == '%' as int || c == '&' as int
    || c == '*' as int || c == '+' as int || c == '-' as int || c == '.' as int
    || c == '/' as int || c == ':' as int || c == '<' as int || c == '=' as int
    || c == '>' as int || c == '?' as int || c == '^' as int || c == '|' as int
    || c == '~' as int
  }

  function OpRun(s: Input, q: nat): (e: nat)
    requires q <= |s|
    ensures q <= e <= |s|
    ensures forall i :: q <= i < e ==> IsOpChar(s[i])
    ensures !IsOpChar(LA(s, e, 0))
    decreases |s| - q
  {
    if IsOpChar(LA(s, q, 0)) then OpRun(s, q + 1) else q
  }

  // Operator at p: the first character, whatever it is, then the run of
  // operator characters after it.
  function OperatorEnd(s: Input, p: nat): nat
    requires p < |s|
  {
    OpRun(s, p + 1)
  }

  // MLComment at p, on "/*": the body, then Match('*') and Match('/').
  function CommentFrom(s: Input, p: nat): (r: CommentScan)
    requires p + 2 <= |s|
    ensures p + 2 <= r.end <= |s|
    decreases |s| - p, 0
  {
    var b := CommentBody(s, p + 2);
    var c := CloseAt(s, b.end);
    CommentScan(c.end, b.errors + c.errors)
  }

  // The loop `nongreedy( MLComment / Newline / [^\$] )*`: it stops on a '*'
  // that a '/' or the end follows, or at the end; "/*" opens a nested
  // comment.
  function CommentBody(s: Input, q: nat): (r: CommentScan)
    requires q <= |s|
    ensures q <= r.end <= |s|
    decreases |s| - q, 1
  {
    var c := LA(s, q, 0);
    if c == '*' as int then
      (if LA(s, q, 1) == -1 || LA(s, q, 1) == '/' as int then CommentScan(q, 0) else CommentBody(s, q + 1))
    else if c == -1 then CommentScan(q, 0)
    else if c == '/' as int && LA(s, q, 1) == '*' as int then
      var n := CommentFrom(s, q);
      var r := CommentBody(s, n.end);
      CommentScan(r.end, n.errors + r.errors)
    else if IsNewlineChar(c) then CommentBody(s, NewlineEnd(s, q))
    else CommentBody(s, q + 1)
  }

  // MLCommentLine(ref nested): one line of a multi-line comment. It returns
  // true when the comment closes on this line and false at a newline.
  datatype LineScan = LineScan(end: nat, nested: int, closed: bool, errors: nat)

  // MLCommentLine_Test0 at q: a '/' is there.
  predicate CommentLineTest0(s: Input, q: nat)
  {
    LA(s, q, 0) == '/' as int
  }

  // The loop `greedy( &{nested > 0} [*] [/] / [/] [*] / [^\$\n\r*] / [*] &!([/]) )*`:
  // where it stops, the nesting level then, and the errors of its Check.
  datatype LoopScan = LoopScan(stop: nat, nested: int, errors: nat)

  function CommentLineLoop(s: Input, q: nat, nested: int): (r: LoopScan)
    requires q <= |s|
    ensures q <= r.stop <= |s|
    decreases |s| - q
  {
    var c := LA(s, q, 0);
    var c1 := LA(s, q, 1);
    if c == '*' as int then
      if nested > 0 then
        (if c1 == '/' as int then CommentLineLoop(s, q + 2, nested - 1)
         else if c1 != -1 then StarStep(s, q, nested)
         else LoopScan(q, nested, 0))
      else
        (if c1 == '*' as int then StarStep(s, q, nested)
         else if c1 == '/' as int then
           (if !CommentLineTest0(s, q + 1) then StarStep(s, q, nested) else LoopScan(q, nested, 0))
         else if c1 != -1 then StarStep(s, q, nested)
         else LoopScan(q, nested, 0))
    else if c == '/' as int then
      (if c1 == '*' as int then CommentLineLoop(s, q + 2, nested + 1) else CommentLineLoop(s, q + 1, nested))
    else if !(c == -1 || IsNewlineChar(c)) then CommentLineLoop(s, q + 1, nested)
    else LoopScan(q, nested, 0)
  }

  // match4: skip the '*', then Check(!Try_MLCommentLine_Test0(0)).
  function StarStep(s: Input, q: nat, nested: int): (r: LoopScan)
    requires q < |s|
    ensures q < r.stop <= |s|
    decreases |s| - q, 0
  {
    var r := CommentLineLoop(s, q + 1, nested);
    LoopScan(r.stop, r.nested, r.errors + (if CommentLineTest0(s, q + 1) then 1 else 0))
  }

  function CommentLineAt(s: Input, p: nat, nested: int): (r: LineScan)
    requires p <= |s|
    ensures p <= r.end <= |s|
  {
    var l := CommentLineLoop(s, p, nested);
    if IsNewlineChar(LA(s, l.stop, 0)) then
      LineScan(NewlineEnd(s, l.stop), l.nested, false, l.errors)
    else
      var c := CloseAt(s, l.stop);
      LineScan(c.end, l.nested, true, l.errors + c.errors)
  }

  // ---- NextToken

  // The alternatives of NextToken.
  datatype Rule =
    | ShebangRule | SymbolRule | IdRule | NewlineRule | SLCommentRule | MLCommentRule
    | NumberRule | TQStringRule | DQStringRule | SQStringRule | BQOperatorRule
    | CommaRule | SemicolonRule | LParenRule | RParenRule | LBrackRule | RBrackRule
    | LBraceRule | RBraceRule | AtRule | OperatorRule | EOFRule | UnknownRule

  // NextToken_set0 = [!#-'*+\-:<-?A-Z^-z|~]
  predicate InNextTokenSet0(c: int)
  {
    c == '!' as int || Between(c, '#', '\'') || Between(c, '*', '+') || Between(c, '-', ':')
    || Between(c, '<', '?') || Between(c, 'A', 'Z') || Between(c, '^', 'z') || c == '|' as int
    || c == '~' as int
  }

  // FancyId_set0 = [!#-'*+\-:<-?A-Z^_a-z|~]
  predicate InFancyIdSet0(c: int)
  {
    c == '!' as int || Between(c, '#', '\'') || Between(c, '*', '+') || Between(c, '-', ':')
    || Between(c, '<', '?') || Between(c, 'A', 'Z') || Between(c, '^', '_') || Between(c, 'a', 'z')
    || c == '|' as int || c == '~' as int
  }

  // NextToken_set1 = [A-Z_a-z\u0080-￼]
  predicate InNextTokenSet1(c: int)
  {
    Between(c, 'A', 'Z') || c == '_' as int || Between(c, 'a', 'z') || 128 <= c <= 65532
  }

  // The operator characters NextToken sends straight to Operator.
  predicate IsOperatorStart(c: int)
  {
    c == '!' as int || c == '$' as int || c == '%' as int || c == '&' as int
    || c == '*' as int || c == '+' as int || c == ':' as int || c == '<' as int
    || c == '=' as int || c == '>' as int || c == '?' as int || c == '^' as int
    || c == '|' as int || c == '~' as int
  }

  // The '@' cases; isLetter stands for char.IsLetter.
  function AtDispatch(s: Input, p: nat, isLetter: int -> bool): Rule
  {
    var c1 := LA(s, p, 1);
    var c2 := LA(s, p, 2);
    if c1 == '@' as int then
      (if InNextTokenSet0(c2) then SymbolRule
       else if 128 <= c2 <= 65532 && isLetter(c2) then SymbolRule
       else AtRule)
    else if c1 == '`' as int then
      (if !(c2 == -1 || IsNewlineChar(c2)) then IdRule else AtRule)
    else if InFancyIdSet0(c1) then IdRule
    else if 128 <= c1 <= 65532 && isLetter(c1) then IdRule
    else AtRule
  }

  function Dispatch(s: Input, p: nat, isLetter: int -> bool): Rule
  {
    var c := LA(s, p, 0);
    var c1 := LA(s, p, 1);
    var c2 := LA(s, p, 2);
    if c == '#' as int then (if p == 0 && c1 == '!' as int then ShebangRule else IdRule)
    else if c == '@' as int then AtDispatch(s, p, isLetter)
    else if IsNewlineChar(c) then NewlineRule
    else if c == '/' as int then
      (if c1 == '/' as int then SLCommentRule
       else if c1 == '*' as int && c2 != -1 then MLCommentRule
       else OperatorRule)
    else if c == '-' as int then
      (if IsDecDigit(c1) || (c1 == '.' as int && IsDecDigit(c2)) then NumberRule else OperatorRule)
    else if c == '.' as int then (if IsDecDigit(c1) then NumberRule else OperatorRule)
    else if IsDecDigit(c) then NumberRule
    else if c == '"' as int then (if c1 == '"' as int && c2 == '"' as int then TQStringRule else DQStringRule)
    else if c == '\'' as int then (if c1 == '\'' as int && c2 == '\'' as int then TQStringRule else SQStringRule)
    else if c == '`' as int then BQOperatorRule
    else if c == ',' as int then CommaRule
    else if c == ';' as int then SemicolonRule
    else if c == '(' as int then LParenRule
    else if c == ')' as int then RParenRule
    else if c == '[' as int then LBrackRule
    else if c == ']' as int then RBrackRule
    else if c == '{' as int then LBraceRule
    else if c == '}' as int then RBraceRule
    else if IsOperatorStart(c) then OperatorRule
    else if InNextTokenSet1(c) then IdRule
    else if c == -1 then EOFRule
    else UnknownRule
  }

  // TokenType values the modelled rules set. Operator stands for whatever
  // type ParseNormalOp assigns.
  datatype TokenType =
    | Shebang | Literal | Id | Newline | SLComment | MLComment | BQOperator
    | Comma | Semicolon | LParen | SpaceLParen | RParen | LBrack | RBrack | LBrace | RBrace
    | At | Operator | EOF | Unknown

  // _value: WhitespaceTag.Value, S.Comma, S.Semicolon, GSymbol.Empty, or a
  // value computed by ParseNumberValue / ParseNormalOp.
  datatype TokenValue = NoValue | WhitespaceTag | CommaSymbol | SemicolonSymbol | EmptySymbol | ParsedValue

  datatype Token = Token(tokenType: TokenType, start: nat, length: nat, value: TokenValue)

  // What NextToken yields: no token at the end of the input; a token, with
  // the number of errors its rule reported; or the rule it hands over to
  // for the recognizers of identifiers, symbols, strings and back-quoted
  // operators, which are not part of this model.
  datatype Lexed = NoToken | Lexed(token: Token, errors: nat) | Delegated(rule: Rule, start: nat)

  predicate IsDelegated(r: Rule)
  {
    r == SymbolRule || r == IdRule || r == TQStringRule || r == DQStringRule
    || r == SQStringRule || r == BQOperatorRule
  }

  // The _type NextToken sets before it calls a delegated recognizer.
  function DelegatedType(r: Rule): TokenType
  {
    match r
    case IdRule => Id
    case BQOperatorRule => BQOperator
    case _ => Literal
  }

  // Shebang leaves _value null unless its Newline set it.
  function ShebangValue(s: Input, p: nat): TokenValue
    requires p + 2 <= |s|
  {
    if IsNewlineChar(LA(s, LineEnd(s, p + 2), 0)) then WhitespaceTag else NoValue
  }

  // NextToken from a position where Spaces() has already run: the token the
  // chosen rule takes, with its type and value.
  function TokenAt(s: Input, p: nat, isLetter: int -> bool): Lexed
    requires p <= |s|
  {
    if LA(s, p, 0) == -1 then NoToken
    else
      DispatchFits(s, p, isLetter);
      RuleLexed(Dispatch(s, p, isLetter), s, p)
  }

  // What Dispatch has seen of the input when it picks r at p: a character,
  // two for the rules that start with two, and a newline for Newline.
  predicate RuleFits(r: Rule, s: Input, p: nat)
  {
    p < |s| && (r in {ShebangRule, SLCommentRule, MLCommentRule} ==> p + 2 <= |s|)
    && (r == NewlineRule ==> IsNewlineChar(LA(s, p, 0)))
  }

  lemma DispatchFits(s: Input, p: nat, isLetter: int -> bool)
    requires p < |s|
    ensures RuleFits(Dispatch(s, p, isLetter), s, p) && Dispatch(s, p, isLetter) != EOFRule
  {
  }

  // The token rule r takes at p.
  function RuleLexed(r: Rule, s: Input, p: nat): Lexed
    requires RuleFits(r, s, p)
  {
    match r
    case ShebangRule => Lexed(Token(Shebang, p, ShebangEnd(s, p) - p, ShebangValue(s, p)), 0)
    case NewlineRule => Lexed(Token(Newline, p, NewlineEnd(s, p) - p, WhitespaceTag), 0)
    case SLCommentRule => Lexed(Token(SLComment, p, LineEnd(s, p + 2) - p, WhitespaceTag), 0)
    case MLCommentRule =>
      Lexed(Token(MLComment, p, CommentFrom(s, p).end - p, WhitespaceTag), CommentFrom(s, p).errors)
    case NumberRule => Lexed(Token(Literal, p, NumberAt(s, p).end - p, ParsedValue), NumberAt(s, p).errors)
    case CommaRule => Lexed(Token(Comma, p, 1, CommaSymbol), 0)
    case SemicolonRule => Lexed(Token(Semicolon, p, 1, SemicolonSymbol), 0)
    case LParenRule =>
      Lexed(Token(if IsOneOf(LA(s, p, -1), ' ', '\t') then SpaceLParen else LParen, p, 1, NoValue), 0)
    case RParenRule => Lexed(Token(RParen, p, 1, NoValue), 0)
    case LBrackRule => Lexed(Token(LBrack, p, 1, NoValue), 0)
    case RBrackRule => Lexed(Token(RBrack, p, 1, NoValue), 0)
    case LBraceRule => Lexed(Token(LBrace, p, 1, NoValue), 0)
    case RBraceRule => Lexed(Token(RBrace, p, 1, NoValue), 0)
    case AtRule => Lexed(Token(At, p, 1, EmptySymbol), 0)
    case OperatorRule => Lexed(Token(Operator, p, OperatorEnd(s, p) - p, ParsedValue), 0)
    case EOFRule => Lexed(Token(EOF, p, 1, NoValue), 0)
    case UnknownRule => Lexed(Token(Unknown, p, 1, NoValue), 0)
    case SymbolRule => Delegated(SymbolRule, p)
    case IdRule => Delegated(IdRule, p)
    case TQStringRule => Delegated(TQStringRule, p)
    case DQStringRule => Delegated(DQStringRule, p)
    case SQStringRule => Delegated(SQStringRule, p)
    case BQOperatorRule => Delegated(BQOperatorRule, p)
  }

  // ---- the lexer

  // LesLexer's state: the cursor, and the fields its rules set.
  class LesLexer {
    const cur: Cursor
    var isFloat: bool
    var isNegative: bool
    var numberBase: nat
    var typeSuffix: TypeSuffix
    var tokenType: TokenType
    var value: TokenValue
    var startPosition: nat

    ghost predicate Valid()
      reads this, cur
    {
      cur.Valid()
    }

    constructor (s: Input)
      ensures Valid() && cur.input == s && cur.pos == 0 && cur.errors == 0
      ensures !isFloat && !isNegative && typeSuffix == NoSuffix && value == NoValue
    {
      cur := new Cursor(s);
      isFloat := false;
      isNegative := false;
      numberBase := 10;
      typeSuffix := NoSuffix;
      tokenType := Unknown;
      value := NoValue;
      startPosition := 0;
    }

    method DecNumber()
      requires Valid()
      modifies this, cur
      ensures Valid()
      ensures cur.pos == DecNumberScan(cur.input, old(cur.pos)).end
      ensures cur.errors == old(cur.errors) + DecNumberScan(cur.input, old(cur.pos)).errors
      ensures isFloat == (old(isFloat) || DecNumberScan(cur.input, old(cur.pos)).isFloat)
      ensures numberBase == 10
      ensures isNegative == old(isNegative) && typeSuffix == old(typeSuffix)
      ensures tokenType == old(tokenType) && value == old(value) && startPosition == old(startPosition)
    {
      numberBase := 10;
      var f := DecNumberRule(cur);
      isFloat := isFloat || f;
    }

    // HexNumber, on "0x".
    method HexNumber()
      requires Valid() && cur.pos + 2 <= |cur.input|
      modifies this, cur
      ensures Valid()
      ensures cur.pos == HexNumberScan(cur.input, old(cur.pos)).end
      ensures cur.errors == old(cur.errors) + HexNumberScan(cur.input, old(cur.pos)).errors
      ensures isFloat == (old(isFloat) || HexNumberScan(cur.input, old(cur.pos)).isFloat)
      ensures numberBase == 16
      ensures isNegative == old(isNegative) && typeSuffix == old(typeSuffix)
      ensures tokenType == old(tokenType) && value == old(value) && startPosition == old(startPosition)
    {
      numberBase := 16;
      var f := HexNumberRule(cur);
      isFloat := isFloat || f;
    }

    // BinNumber, on "0b".
    method BinNumber()
      requires Valid() && cur.pos + 2 <= |cur.input|
      modifies this, cur
      ensures Valid()
      ensures cur.pos == BinNumberScan(cur.input, old(cur.pos)).end
      ensures cur.errors == old(cur.errors) + BinNumberScan(cur.input, old(cur.pos)).errors
      ensures isFloat == (old(isFloat) || BinNumberScan(cur.input, old(cur.pos)).isFloat)
      ensures numberBase == 2
      ensures isNegative == old(isNegative) && typeSuffix == old(typeSuffix)
      ensures tokenType == old(tokenType) && value == old(value) && startPosition == old(startPosition)
    {
      numberBase := 2;
      var f := BinNumberRule(cur);
      isFloat := isFloat || f;
    }

    // The type suffix after the digits.
    method Suffix()
      requires Valid()
      modifies this, cur
      ensures Valid() && cur.errors == old(cur.errors)
      ensures cur.pos == SuffixAt(cur.input, old(cur.pos)).end
      ensures typeSuffix == (if SuffixAt(cur.input, old(cur.pos)).suffix == NoSuffix then old(typeSuffix)
                             else SuffixAt(cur.input, old(cur.pos)).suffix)
      ensures isFloat == (old(isFloat) || IsFloatSuffix(SuffixAt(cur.input, old(cur.pos)).suffix))
      ensures isNegative == old(isNegative) && numberBase == old(numberBase)
      ensures tokenType == old(tokenType) && value == old(value) && startPosition == old(startPosition)
    {
      var c := LA(cur.input, cur.pos, 0);
      if IsOneOf(c, 'F', 'f') {
        cur.Skip();
        typeSuffix := SuffixF;
        isFloat := true;
      } else if IsOneOf(c, 'D', 'd') {
        cur.Skip();
        typeSuffix := SuffixD;
        isFloat := true;
      } else if IsOneOf(c, 'M', 'm') {
        cur.Skip();
        typeSuffix := SuffixM;
        isFloat := true;
      } else if IsOneOf(c, 'L', 'l') {
        cur.Skip();
        typeSuffix := SuffixL;
        if IsOneOf(LA(cur.input, cur.pos, 0), 'U', 'u') {
          cur.Skip();
          typeSuffix := SuffixUL;
        }
      } else if IsOneOf(c, 'U', 'u') {
        cur.Skip();
        typeSuffix := SuffixU;
        if IsOneOf(LA(cur.input, cur.pos, 0), 'L', 'l') {
          cur.Skip();
          typeSuffix := SuffixUL;
        }
      }
    }

    // Number: resets the flags, takes an optional '-', picks the base from
    // the prefix, then takes the suffix. The value ParseNumberValue computes
    // from numberEnd is not part of this model.
    method Number() returns (numberEnd: nat)
      requires Valid()
      modifies this, cur
      ensures Valid()
      ensures cur.pos == NumberAt(cur.input, old(cur.pos)).end
      ensures numberEnd == NumberAt(cur.input, old(cur.pos)).numberEnd
      ensures cur.errors == old(cur.errors) + NumberAt(cur.input, old(cur.pos)).errors
      ensures isFloat == NumberAt(cur.input, old(cur.pos)).isFloat
      ensures isNegative == NumberAt(cur.input, old(cur.pos)).isNegative
      ensures numberBase == NumberAt(cur.input, old(cur.pos)).numberBase
      ensures typeSuffix == NumberAt(cur.input, old(cur.pos)).suffix
      ensures tokenType == old(tokenType) && value == old(value) && startPosition == old(startPosition)
    {
      isFloat := false;
      isNegative := false;
      typeSuffix := NoSuffix;
      if LA(cur.input, cur.pos, 0) == '-' as int {
        cur.Skip();
        isNegative := true;
      }
      NumberAtParts(cur.input, old(cur.pos), cur.pos);
      NumberBody();
      numberEnd := cur.pos;
      Suffix();
    }

    method NumberBody()
      requires Valid()
      modifies this, cur
      ensures Valid()
      ensures cur.pos == BodyScan(cur.input, old(cur.pos)).end
      ensures cur.errors == old(cur.errors) + BodyScan(cur.input, old(cur.pos)).errors
      ensures isFloat == (old(isFloat) || BodyScan(cur.input, old(cur.pos)).isFloat)
      ensures numberBase == BaseAt(cur.input, old(cur.pos))
      ensures isNegative == old(isNegative) && typeSuffix == old(typeSuffix)
      ensures tokenType == old(tokenType) && value == old(value) && startPosition == old(startPosition)
    {
      if BaseAt(cur.input, cur.pos) == 16 {
        HexNumber();
      } else if BaseAt(cur.input, cur.pos) == 2 {
        BinNumber();
      } else {
        DecNumber();
      }
    }

    // Operator: the first character, then every operator character after it.
    // The type and value ParseNormalOp picks are not part of this model.
    method Operator()
      requires Valid() && cur.pos < |cur.input|
      modifies cur
      ensures Valid() && cur.errors == old(cur.errors)
      ensures cur.pos == OperatorEnd(cur.input, old(cur.pos))
    {
      cur.Skip();
      while IsOpChar(LA(cur.input, cur.pos, 0))
        invariant cur.Valid() && cur.errors == old(cur.errors)
        invariant OpRun(cur.input, cur.pos) == OperatorEnd(cur.input, old(cur.pos))
        decreases |cur.input| - cur.pos
      {
        cur.Skip();
      }
    }

    // MLComment, on "/*".
    method MLComment()
      requires Valid() && cur.pos + 2 <= |cur.input|
      modifies this, cur
      ensures Valid()
      ensures cur.pos == CommentFrom(cur.input, old(cur.pos)).end
      ensures cur.errors == old(cur.errors) + CommentFrom(cur.input, old(cur.pos)).errors
      ensures value == WhitespaceTag
      ensures isFloat == old(isFloat) && isNegative == old(isNegative) && numberBase == old(numberBase)
      ensures typeSuffix == old(typeSuffix) && tokenType == old(tokenType) && startPosition == old(startPosition)
      decreases |cur.input| - cur.pos, 0
    {
      cur.Skip();
      cur.Skip();
      CommentLoop();
      cur.Match('*', '*');
      cur.Match('/', '/');
      value := WhitespaceTag;
    }

    // The loop of MLComment, after "/*": up to a '*' before '/' or the end.
    method CommentLoop()
      requires Valid()
      modifies this, cur
      ensures Valid()
      ensures cur.pos == CommentBody(cur.input, old(cur.pos)).end
      ensures cur.errors == old(cur.errors) + CommentBody(cur.input, old(cur.pos)).errors
      ensures isFloat == old(isFloat) && isNegative == old(isNegative) && numberBase == old(numberBase)
      ensures typeSuffix == old(typeSuffix) && tokenType == old(tokenType) && startPosition == old(startPosition)
      decreases |cur.input| - cur.pos, 1
    {
      ghost var p0, e0 := cur.pos, cur.errors;
      while true
        invariant Valid() && p0 <= cur.pos
        invariant CommentBody(cur.input, cur.pos).end == CommentBody(cur.input, p0).end
        invariant cur.errors + CommentBody(cur.input, cur.pos).errors == e0 + CommentBody(cur.input, p0).errors
        invariant isFloat == old(isFloat) && isNegative == old(isNegative) && numberBase == old(numberBase)
        invariant typeSuffix == old(typeSuffix) && tokenType == old(tokenType) && startPosition == old(startPosition)
        decreases |cur.input| - cur.pos
      {
        var c := LA(cur.input, cur.pos, 0);
        if c == '*' as int {
          if LA(cur.input, cur.pos, 1) == -1 || LA(cur.input, cur.pos, 1) == '/' as int {
            break;
          }
          cur.Skip();
        } else if c == -1 {
          break;
        } else if c == '/' as int && LA(cur.input, cur.pos, 1) == '*' as int {
          MLComment();
        } else if IsNewlineChar(c) {
          cur.NewlineChars();
        } else {
          cur.Skip();
        }
      }
    }

    // Newline: `[\r] ([\n])? | [\n]`. AfterNewline's line bookkeeping is not
    // part of this model.
    method Newline()
      requires Valid()
      modifies this, cur
      ensures Valid()
      ensures cur.pos == NewlineEnd(cur.input, old(cur.pos))
      ensures cur.errors == old(cur.errors) + (if IsNewlineChar(LA(cur.input, old(cur.pos), 0)) then 0 else 1)
      ensures value == WhitespaceTag
      ensures isFloat == old(isFloat) && isNegative == old(isNegative) && numberBase == old(numberBase)
      ensures typeSuffix == old(typeSuffix) && tokenType == old(tokenType) && startPosition == old(startPosition)
    {
      cur.NewlineChars();
      value := WhitespaceTag;
    }

    // SLComment, on "//": the rest of the line.
    method SLComment()
      requires Valid() && cur.pos + 2 <= |cur.input|
      modifies this, cur
      ensures Valid() && cur.errors == old(cur.errors)
      ensures cur.pos == LineEnd(cur.input, old(cur.pos) + 2)
      ensures value == WhitespaceTag
      ensures isFloat == old(isFloat) && isNegative == old(isNegative) && numberBase == old(numberBase)
      ensures typeSuffix == old(typeSuffix) && tokenType == old(tokenType) && startPosition == old(startPosition)
    {
      cur.Skip();
      cur.Skip();
      cur.SkipLine();
      value := WhitespaceTag;
    }

    // Shebang, on "#!": the rest of the line, then its newline if any.
    method Shebang()
      requires Valid() && cur.pos + 2 <= |cur.input|
      modifies this, cur
      ensures Valid() && cur.errors == old(cur.errors)
      ensures cur.pos == ShebangEnd(cur.input, old(cur.pos))
      ensures value == (if ShebangValue(cur.input, old(cur.pos)) == WhitespaceTag then WhitespaceTag else old(value))
      ensures isFloat == old(isFloat) && isNegative == old(isNegative) && numberBase == old(numberBase)
      ensures typeSuffix == old(typeSuffix) && tokenType == old(tokenType) && startPosition == old(startPosition)
    {
      cur.Skip();
      cur.Skip();
      cur.SkipLine();
      if IsNewlineChar(LA(cur.input, cur.pos, 0)) {
        Newline();
      }
    }

    // MLCommentLine(ref nested): `nested` in, `nestedOut` back; true when the
    // comment closed on this line.
    method MLCommentLine(nested: int) returns (closed: bool, nestedOut: int)
      requires Valid()
      modifies this, cur
      ensures Valid()
      ensures closed == CommentLineAt(cur.input, old(cur.pos), nested).closed
      ensures nestedOut == CommentLineAt(cur.input, old(cur.pos), nested).nested
      ensures cur.pos == CommentLineAt(cur.input, old(cur.pos), nested).end
      ensures cur.errors == old(cur.errors) + CommentLineAt(cur.input, old(cur.pos), nested).errors
      ensures value == (if closed then old(value) else WhitespaceTag)
      ensures isFloat == old(isFloat) && isNegative == old(isNegative) && numberBase == old(numberBase)
      ensures typeSuffix == old(typeSuffix) && tokenType == old(tokenType) && startPosition == old(startPosition)
    {
      nestedOut := CommentLineRun(nested);
      if IsNewlineChar(LA(cur.input, cur.pos, 0)) {
        Newline();
        closed := false;
      } else {
        cur.Match('*', '*');
        cur.Match('/', '/');
        closed := true;
      }
    }

    // The loop of MLCommentLine: up to the newline, the closing "*/" or the end.
    method CommentLineRun(nested: int) returns (nestedOut: int)
      requires Valid()
      modifies cur
      ensures Valid()
      ensures nestedOut == CommentLineLoop(cur.input, old(cur.pos), nested).nested
      ensures cur.pos == CommentLineLoop(cur.input, old(cur.pos), nested).stop
      ensures cur.errors == old(cur.errors) + CommentLineLoop(cur.input, old(cur.pos), nested).errors
    {
      ghost var l := CommentLineLoop(cur.input, cur.pos, nested);
      ghost var e0 := cur.errors;
      nestedOut := nested;
      while true
        invariant Valid()
        invariant CommentLineLoop(cur.input, cur.pos, nestedOut).stop == l.stop
        invariant CommentLineLoop(cur.input, cur.pos, nestedOut).nested == l.nested
        invariant cur.errors + CommentLineLoop(cur.input, cur.pos, nestedOut).errors == e0 + l.errors
        decreases |cur.input| - cur.pos
      {
        var c := LA(cur.input, cur.pos, 0);
        var c1 := LA(cur.input, cur.pos, 1);
        var star := false;
        if c == '*' as int {
          if nestedOut > 0 {
            if c1 == '/' as int {
              cur.Skip();
              cur.Skip();
              nestedOut := nestedOut - 1;
            } else if c1 != -1 {
              star := true;
            } else {
              break;
            }
          } else {
            if c1 == '*' as int {
              star := true;
            } else if c1 == '/' as int {
              if !CommentLineTest0(cur.input, cur.pos + 1) {
                star := true;
              } else {
                break;
              }
            } else if c1 != -1 {
              star := true;
            } else {
              break;
            }
          }
        } else if c == '/' as int {
          if c1 == '*' as int {
            cur.Skip();
            cur.Skip();
            nestedOut := nestedOut + 1;
          } else {
            cur.Skip();
          }
        } else if !(c == -1 || IsNewlineChar(c)) {
          cur.Skip();
        } else {
          break;
        }
        if star {
          // match4: Skip(); Check(!Try_MLCommentLine_Test0(0))
          cur.Skip();
          cur.Check(!CommentLineTest0(cur.input, cur.pos));
        }
      }
    }

    // The lexer holds the token r that a rule ran from p0 with e0 errors
    // before it.
    ghost predicate Holds(r: Lexed, p0: nat, e0: nat)
      reads this, cur
    {
      r.Lexed? && cur.pos == r.token.start + r.token.length && cur.errors == e0 + r.errors
      && r.token.start == p0 && tokenType == r.token.tokenType && value == r.token.value
      && startPosition == r.token.start
    }

    // The rules that take more than one character.
    method LongRule(rule: Rule) returns (r: Lexed)
      requires Valid() && RuleFits(rule, cur.input, cur.pos)
      requires rule in {ShebangRule, NewlineRule, SLCommentRule, MLCommentRule, NumberRule, OperatorRule}
      requires value == NoValue && startPosition == cur.pos
      modifies this, cur
      ensures Valid()
      ensures r == RuleLexed(rule, cur.input, old(cur.pos))
      ensures Holds(r, old(cur.pos), old(cur.errors))
    {
      var p, e0 := cur.pos, cur.errors;
      match rule {
      case ShebangRule => TokenShebang();
      case NewlineRule => TokenNewline();
      case SLCommentRule => TokenSLComment();
      case MLCommentRule => TokenMLComment();
      case NumberRule => TokenNumber();
      case OperatorRule => TokenOperator();
      }
      r := Lexed(Token(tokenType, p, cur.pos - p, value), cur.errors - e0);
    }

    // The rule methods LongRule runs, each holding the token RuleLexed gives.
    method TokenShebang()
      requires Valid() && RuleFits(ShebangRule, cur.input, cur.pos)
      requires value == NoValue && startPosition == cur.pos
      modifies this, cur
      ensures Valid()
      ensures Holds(RuleLexed(ShebangRule, cur.input, old(cur.pos)), old(cur.pos), old(cur.errors))
    {
      tokenType := TokenType.Shebang;
      Shebang();
    }

    method TokenNewline()
      requires Valid() && RuleFits(NewlineRule, cur.input, cur.pos)
      requires value == NoValue && startPosition == cur.pos
      modifies this, cur
      ensures Valid()
      ensures Holds(RuleLexed(NewlineRule, cur.input, old(cur.pos)), old(cur.pos), old(cur.errors))
    {
      tokenType := TokenType.Newline;
      Newline();
    }

    method TokenSLComment()
      requires Valid() && RuleFits(SLCommentRule, cur.input, cur.pos)
      requires value == NoValue && startPosition == cur.pos
      modifies this, cur
      ensures Valid()
      ensures Holds(RuleLexed(SLCommentRule, cur.input, old(cur.pos)), old(cur.pos), old(cur.errors))
    {
      tokenType := TokenType.SLComment;
      SLComment();
    }

    method TokenMLComment()
      requires Valid() && RuleFits(MLCommentRule, cur.input, cur.pos)
      requires value == NoValue && startPosition == cur.pos
      modifies this, cur
      ensures Valid()
      ensures Holds(RuleLexed(MLCommentRule, cur.input, old(cur.pos)), old(cur.pos), old(cur.errors))
    {
      tokenType := TokenType.MLComment;
      MLComment();
    }

    method TokenNumber()
      requires Valid() && RuleFits(NumberRule, cur.input, cur.pos)
      requires value == NoValue && startPosition == cur.pos
      modifies this, cur
      ensures Valid()
      ensures Holds(RuleLexed(NumberRule, cur.input, old(cur.pos)), old(cur.pos), old(cur.errors))
    {
      tokenType := Literal;
      var _ := Number();
      value := ParsedValue;
    }

    method TokenOperator()
      requires Valid() && RuleFits(OperatorRule, cur.input, cur.pos)
      requires value == NoValue && startPosition == cur.pos
      modifies this, cur
      ensures Valid()
      ensures Holds(RuleLexed(OperatorRule, cur.input, old(cur.pos)), old(cur.pos), old(cur.errors))
    {
      Operator();
      tokenType := TokenType.Operator;
      value := ParsedValue;
    }

    // The rules that take one character.
    method ShortRule(rule: Rule) returns (r: Lexed)
      requires Valid() && RuleFits(rule, cur.input, cur.pos)
      requires rule !in {ShebangRule, NewlineRule, SLCommentRule, MLCommentRule, NumberRule, OperatorRule}
      requires !IsDelegated(rule) && rule != EOFRule && value == NoValue && startPosition == cur.pos
      modifies this, cur
      ensures Valid()
      ensures r == RuleLexed(rule, cur.input, old(cur.pos))
      ensures Holds(r, old(cur.pos), old(cur.errors))
    {
      var p := cur.pos;
      match rule {
      case CommaRule =>
        tokenType := Comma;
        value := CommaSymbol;
      case SemicolonRule =>
        tokenType := Semicolon;
        value := SemicolonSymbol;
      case LParenRule =>
        var prev := LA(cur.input, cur.pos, -1);
        tokenType := if prev == ' ' as int || prev == '\t' as int then SpaceLParen else LParen;
      case RParenRule =>
        tokenType := RParen;
      case LBrackRule =>
        tokenType := LBrack;
      case RBrackRule =>
        tokenType := RBrack;
      case LBraceRule =>
        tokenType := LBrace;
      case RBraceRule =>
        tokenType := RBrace;
      case AtRule =>
        tokenType := At;
        value := EmptySymbol;
      case UnknownRule =>
        value := NoValue;
        tokenType := Unknown;
      case EOFRule =>
        assert false;
      }
      cur.Skip();
      r := Lexed(Token(tokenType, p, 1, value), 0);
    }

    // NextToken after Spaces(): picks the rule from the lookahead, sets _type
    // and runs it. For a delegated rule it stops once _type is set.
    method NextToken(isLetter: int -> bool) returns (r: Lexed)
      requires Valid()
      modifies this, cur
      ensures Valid()
      ensures r == TokenAt(cur.input, old(cur.pos), isLetter)
      ensures r.Lexed? ==> Holds(r, old(cur.pos), old(cur.errors))
      ensures r.Delegated? ==> cur.pos == old(cur.pos) && cur.errors == old(cur.errors)
      ensures r.Delegated? ==> tokenType == DelegatedType(r.rule) && value == NoValue && startPosition == r.start
      ensures r.NoToken? ==> cur.pos == old(cur.pos) && cur.errors == old(cur.errors) && value == NoValue
    {
      value := NoValue;
      if LA(cur.input, cur.pos, 0) == -1 {
        return NoToken;
      }
      startPosition := cur.pos;
      var rule := Dispatch(cur.input, cur.pos, isLetter);
      DispatchFits(cur.input, cur.pos, isLetter);
      if IsDelegated(rule) {
        tokenType := DelegatedType(rule);
        return Delegated(rule, cur.pos);
      }
      if rule in {ShebangRule, NewlineRule, SLCommentRule, MLCommentRule, NumberRule, OperatorRule} {
        r := LongRule(rule);
      } else {
        r := ShortRule(rule);
      }
    }
  }
}
