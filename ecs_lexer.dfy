// EcsLexer's recognition rules: numbers with their suffix symbols, comments
// (nested only when AllowNestedComments is set), the choice Token makes from
// the lookahead, and the token each rule yields. The EcsLexer class runs the
// rules over a cursor, updating the fields the generated code updates, and
// each method is proved to do what the function says.
module EcsLexers {
  import opened Wrappers
  import opened Chars
  import opened LexerCore
  import opened NumberSyntax
  import opened EcsTokens
  import opened EcsOperators
  import opened EcsKeywords

  // ---- numbers

  // HexNumber at p, on "0x": the digits and fraction, an error when the
  // position is still just after "0x", then the [Pp] exponent.
  function EcsHexNumberScan(s: Input, p: nat): (m: Mantissa)
    requires p + 2 <= |s|
    ensures p + 2 <= m.end <= |s|
  {
    var h := HexMantissa(s, p);
    Exponent(s, Mantissa(h.end, h.isFloat, if h.end == p + 2 then 1 else 0), 'P', 'p')
  }

  // `( HexNumber / BinNumber / DecNumber )` at p.
  function EcsBodyScan(s: Input, p: nat): (m: Mantissa)
    requires p <= |s|
    ensures p <= m.end <= |s|
  {
    var base := BaseAt(s, p);
    if base == 16 then EcsHexNumberScan(s, p) else if base == 2 then BinNumberScan(s, p) else DecNumberScan(s, p)
  }

  // `( [Ff] | [Dd] | [Mm] | [Ll] ([Uu])? | [Uu] ([Ll])? | [Zz] )?` at q, and
  // the symbol it leaves in _value ("_" when there is no suffix).
  datatype SuffixScan = SuffixScan(symbol: string, end: nat)

  function SuffixAt(s: Input, q: nat): (r: SuffixScan)
    requires q <= |s|
    ensures q <= r.end <= q + 2 && r.end <= |s|
    ensures r.symbol == "_" <==> r.end == q
    ensures r.symbol == "_uL" <==> r.end == q + 2
  {
    var c := LA(s, q, 0);
    if IsOneOf(c, 'F', 'f') then SuffixScan("_f", q + 1)
    else if IsOneOf(c, 'D', 'd') then SuffixScan("_d", q + 1)
    else if IsOneOf(c, 'M', 'm') then SuffixScan("_m", q + 1)
    else if IsOneOf(c, 'L', 'l') then
      (if IsOneOf(LA(s, q, 1), 'U', 'u') then SuffixScan("_uL", q + 2) else SuffixScan("_L", q + 1))
    else if IsOneOf(c, 'U', 'u') then
      (if IsOneOf(LA(s, q, 1), 'L', 'l') then SuffixScan("_uL", q + 2) else SuffixScan("_u", q + 1))
    else if IsOneOf(c, 'Z', 'z') then SuffixScan("_z", q + 1)
    else SuffixScan("_", q)
  }

  // What Number leaves in the lexer: the end of the token, _textValue (the
  // text before the suffix), _value (the suffix symbol) and its errors.
  datatype NumberScan = NumberScan(end: nat, text: seq<Char16>, value: TokenValue, errors: nat)

  function NumberAt(s: Input, p: nat): (r: NumberScan)
    requires p <= |s|
    ensures p + |r.text| <= r.end <= |s|
  {
    var m := EcsBodyScan(s, p);
    var x := SuffixAt(s, m.end);
    NumberScan(x.end, s[p..m.end], NamedSymbol(x.symbol), m.errors)
  }

  // ---- comments

  // A comment's extent, its errors, and _allowPPAt after it: every newline
  // inside it moves _allowPPAt to the start of the next line.
  datatype CommentRun = CommentRun(end: nat, errors: nat, allowPPAt: nat)

  // MLComment at p, on "/*": the body, then Match('*') and Match('/').
  function CommentFrom(s: Input, p: nat, allowNested: bool, allowPPAt: nat): (r: CommentRun)
    requires p + 2 <= |s|
    ensures p + 2 <= r.end <= |s|
    decreases |s| - p, 0
  {
    var b := CommentBody(s, p + 2, allowNested, allowPPAt);
    var c := CloseAt(s, b.end);
    CommentRun(c.end, b.errors + c.errors, b.allowPPAt)
  }

  // The loop `nongreedy( &{AllowNestedComments} MLComment / Newline / [^\$] )*`:
  // it stops on a '*' that a '/' follows, or at the end; "/*" opens a nested
  // comment only when allowNested holds.
  function CommentBody(s: Input, q: nat, allowNested: bool, allowPPAt: nat): (r: CommentRun)
    requires q <= |s|
    ensures q <= r.end <= |s|
    decreases |s| - q, 1
  {
    var c := LA(s, q, 0);
    if c == '*' as int then
      (if LA(s, q, 1) == '/' as int then CommentRun(q, 0, allowPPAt) else CommentBody(s, q + 1, allowNested, allowPPAt))
    else if c == -1 then CommentRun(q, 0, allowPPAt)
    else if c == '/' as int && allowNested && LA(s, q, 1) == '*' as int then
      var n := CommentFrom(s, q, allowNested, allowPPAt);
      var r := CommentBody(s, n.end, allowNested, n.allowPPAt);
      CommentRun(r.end, n.errors + r.errors, r.allowPPAt)
    else if IsNewlineChar(c) then
      var e := NewlineEnd(s, q);
      CommentBody(s, e, allowNested, e)
    else CommentBody(s, q + 1, allowNested, allowPPAt)
  }

  // ---- Token

  // The alternatives of Token. IdRule is match6, `_type = TT.Id;
  // IdOrKeyword()`.
  datatype Rule =
    | NewlineRule | NumberRule | SLCommentRule | MLCommentRule | ShebangRule | IdRule
    | TQStringRule | SQStringRule | DQStringRule | BQStringRule | SymbolRule | AtRule
    | OperatorRule | BOMRule | CommaRule | SemicolonRule
    | LParenRule | RParenRule | LBrackRule | RBrackRule | LBraceRule | RBraceRule
    | ErrorRule

  // Token_set0 = [!#-'*+\-:<-?A-Z\\^-z|~\u0080-﻾]
  predicate InTokenSet0(c: int)
  {
    c == '!' as int || Between(c, '#', '\'') || Between(c, '*', '+') || Between(c, '-', ':')
    || Between(c, '<', '?') || Between(c, 'A', 'Z') || c == '\\' as int || Between(c, '^', 'z')
    || c == '|' as int || c == '~' as int || 0x80 <= c <= 0xFEFE
  }

  // Token_set1 = [#A-Z\\_a-z\u0080-﻾]
  predicate InTokenSet1(c: int)
  {
    c == '#' as int || Between(c, 'A', 'Z') || c == '\\' as int || c == '_' as int
    || Between(c, 'a', 'z') || 0x80 <= c <= 0xFEFE
  }

  // Token_set2 = [A-Z_a-z\u0080-﻾]
  predicate InTokenSet2(c: int)
  {
    Between(c, 'A', 'Z') || c == '_' as int || Between(c, 'a', 'z') || 0x80 <= c <= 0xFEFE
  }

  // The characters after '@' that make an identifier: ! $ % & ' * + - . /
  // 0-9 : < = > ? ^ | ~
  predicate IsAtIdChar(c: int)
  {
    c == 33 || 36 <= c <= 39 || c == 42 || c == 43 || 45 <= c <= 58 || 60 <= c <= 63
    || c == 94 || c == 124 || c == 126
  }

  // The operator characters Token sends straight to Operator.
  predicate IsOperatorStart(c: int)
  {
    c == '!' as int || c == '$' as int || c == '%' as int || c == '&' as int
    || c == '*' as int || c == '+' as int || c == '-' as int || c == ':' as int
    || c == '<' as int || c == '=' as int || c == '>' as int || c == '?' as int
    || c == '^' as int || c == '|' as int || c == '~' as int
  }

  predicate EndsLine(c: int)
  {
    c == -1 || IsNewlineChar(c)
  }

  // The '@' cases of Token.
  function AtDispatch(s: Input, p: nat): Rule
  {
    var c1 := LA(s, p, 1);
    var c2 := LA(s, p, 2);
    if c1 == '`' as int then (if !EndsLine(c2) then IdRule else AtRule)
    else if IsAtIdChar(c1) then IdRule
    else if c1 == '"' as int then (if c2 != -1 then DQStringRule else AtRule)
    else if c1 == '@' as int then (if InTokenSet0(c2) then SymbolRule else AtRule)
    else if InTokenSet1(c1) then IdRule
    else AtRule
  }

  // The switch of Token on LA0, and on LA(1) and LA(2) where it looks at them.
  function Dispatch(s: Input, p: nat): Rule
  {
    var c := LA(s, p, 0);
    var c1 := LA(s, p, 1);
    var c2 := LA(s, p, 2);
    if IsNewlineChar(c) then NewlineRule
    else if IsDecDigit(c) then NumberRule
    else if c == '.' as int then (if IsDecDigit(c1) then NumberRule else OperatorRule)
    else if c == '/' as int then
      (if c1 == '/' as int then SLCommentRule
       else if c1 == '*' as int && c2 != -1 then MLCommentRule
       else OperatorRule)
    else if c == '#' as int then (if p == 0 && c1 == '!' as int then ShebangRule else IdRule)
    else if c == '@' as int then AtDispatch(s, p)
    else if c == '\\' as int then (if IsOneOf(c1, 'U', 'u') && InClass(Hex, c2) then IdRule else OperatorRule)
    else if c == '"' as int then
      (if c1 == '"' as int then (if c2 == '"' as int then TQStringRule else DQStringRule)
       else if !EndsLine(c1) then DQStringRule
       else ErrorRule)
    else if c == '\'' as int then
      (if c1 == '\'' as int then (if c2 == '\'' as int then TQStringRule else SQStringRule)
       else if !EndsLine(c1) then SQStringRule
       else ErrorRule)
    else if c == '`' as int then BQStringRule
    else if IsOperatorStart(c) then OperatorRule
    else if c == 0xFEFF then BOMRule
    else if c == ',' as int then CommaRule
    else if c == ';' as int then SemicolonRule
    else if c == '(' as int then LParenRule
    else if c == ')' as int then RParenRule
    else if c == '[' as int then LBrackRule
    else if c == ']' as int then RBrackRule
    else if c == '{' as int then LBraceRule
    else if c == '}' as int then RBraceRule
    else if InTokenSet2(c) then IdRule
    else ErrorRule
  }

  // The lexer fields Token reads and writes besides _type and _value.
  datatype LexState = LexState(allowPPAt: nat, lineStartAt: nat)

  // What Token yields: a token, with the number of errors its rule reported
  // and the fields after it; or the recognizer it hands over to for strings,
  // symbols and identifiers that are not keywords, which are not part of
  // this model, with the _type it set before.
  datatype Lexed =
    | Lexed(token: Token, errors: nat, state: LexState)
    | Delegated(rule: Rule, tokenType: TokenType)

  // IdOrKeyword at p: a keyword, whose token runs to the end of the line
  // when its value is RestOfPPLine(); otherwise Id() takes over.
  function IdOrKeywordAt(s: Input, p: nat, st: LexState): Lexed
    requires p <= |s|
  {
    match KeywordAt(s, p, p == st.allowPPAt)
    case None => Delegated(IdRule, Id)
    case Some(k) =>
      var e := WordEnd(s, p);
      if k.restOfLine then
        var l := LineEnd(s, e);
        Lexed(Token(k.tokenType, p, l - p, LineText(s[e..l])), 0, st)
      else
        Lexed(Token(k.tokenType, p, e - p, k.value), 0, st)
  }

  // The tokens of the rules that call a rule method of their own, at p with
  // the fields st before it.

  // Newline: the newline, after which preprocessor directives are allowed.
  function NewlineLexed(s: Input, p: nat, st: LexState): Lexed
    requires p <= |s|
  {
    var e := NewlineEnd(s, p);
    Lexed(Token(TokenType.Newline, p, e - p, WhitespaceTag), 0, st.(allowPPAt := e))
  }

  // Number: the literal NumberAt scans.
  function NumberLexed(s: Input, p: nat, st: LexState): Lexed
    requires p <= |s|
  {
    var n := NumberAt(s, p);
    Lexed(Token(Literal, p, n.end - p, n.value), n.errors, st)
  }

  // SLComment: "//" to the end of the line.
  function SLCommentLexed(s: Input, p: nat, st: LexState): Lexed
    requires p + 2 <= |s|
  {
    Lexed(Token(TokenType.SLComment, p, LineEnd(s, p + 2) - p, WhitespaceTag), 0, st)
  }

  // MLComment: "/*" to its matching "*/".
  function MLCommentLexed(s: Input, p: nat, st: LexState, allowNested: bool): Lexed
    requires p + 2 <= |s|
  {
    var c := CommentFrom(s, p, allowNested, st.allowPPAt);
    Lexed(Token(TokenType.MLComment, p, c.end - p, WhitespaceTag), c.errors, st.(allowPPAt := c.allowPPAt))
  }

  // Shebang: "#!" to the end of the line and the newline after it.
  function ShebangLexed(s: Input, p: nat, st: LexState): Lexed
    requires p + 2 <= |s|
  {
    var e := ShebangEnd(s, p);
    var l := LineEnd(s, p + 2);
    Lexed(Token(TokenType.Shebang, p, e - p, WhitespaceTag), 0,
          if IsNewlineChar(LA(s, l, 0)) then st.(allowPPAt := e) else st)
  }

  // Operator: the longest operator OperatorTree picks.
  function OperatorLexed(s: Input, p: nat, st: LexState): Lexed
  {
    var r := OperatorTree(s, p);
    var op := OperatorAt(r.alt);
    Lexed(Token(op.tokenType, p, r.length, op.value), r.errors, st)
  }

  // The one-character rules: BOM, punctuation and the unrecognised token.

  // UTF_BOM: spaces, moving _lineStartAt past a byte order mark that starts
  // the line.
  function BOMLexed(p: nat, st: LexState): Lexed
  {
    Lexed(Token(Spaces, p, 1, WhitespaceTag), 0, if st.lineStartAt == p then st.(lineStartAt := p + 1) else st)
  }

  predicate IsPunctuation(r: Rule)
  {
    r in {CommaRule, SemicolonRule, AtRule, LParenRule, RParenRule, LBrackRule, RBrackRule, LBraceRule, RBraceRule}
  }

  // A punctuation mark: its token type, with the symbol Comma, Semicolon and
  // At carry as their value.
  function PunctuationLexed(r: Rule, p: nat, st: LexState): Lexed
    requires IsPunctuation(r)
  {
    match r
    case CommaRule => Lexed(Token(Comma, p, 1, CodeSymbol("Comma")), 0, st)
    case SemicolonRule => Lexed(Token(Semicolon, p, 1, CodeSymbol("Semicolon")), 0, st)
    case AtRule => Lexed(Token(At, p, 1, CodeSymbol("AtSign")), 0, st)
    case LParenRule => Lexed(Token(LParen, p, 1, NoValue), 0, st)
    case RParenRule => Lexed(Token(RParen, p, 1, NoValue), 0, st)
    case LBrackRule => Lexed(Token(LBrack, p, 1, NoValue), 0, st)
    case RBrackRule => Lexed(Token(RBrack, p, 1, NoValue), 0, st)
    case LBraceRule => Lexed(Token(LBrace, p, 1, NoValue), 0, st)
    case RBraceRule => Lexed(Token(RBrace, p, 1, NoValue), 0, st)
  }

  // Error(0, "Unrecognized token"), then MatchExcept(), which reports a
  // second error at the end of the input.
  function ErrorLexed(s: Input, p: nat, st: LexState): Lexed
    requires p <= |s|
  {
    if p < |s| then Lexed(Token(Unknown, p, 1, NoValue), 1, st)
    else Lexed(Token(Unknown, p, 0, NoValue), 2, st)
  }

  // What the rule methods need of the input: the newline Newline matches,
  // the two characters SLComment, MLComment and Shebang skip, the character
  // UTF_BOM and the punctuation rules skip.
  predicate RuleFits(r: Rule, s: Input, p: nat)
  {
    p <= |s|
    && (r == NewlineRule ==> IsNewlineChar(LA(s, p, 0)))
    && (r in {SLCommentRule, MLCommentRule, ShebangRule} ==> p + 2 <= |s|)
    && (r == BOMRule || IsPunctuation(r) ==> p < |s|)
  }

  // Rule r run at p with _startPosition == p and _value cleared; allowNested
  // is AllowNestedComments.
  function RuleLexed(r: Rule, s: Input, p: nat, st: LexState, allowNested: bool): Lexed
    requires RuleFits(r, s, p)
  {
    match r
    case NewlineRule => NewlineLexed(s, p, st)
    case NumberRule => NumberLexed(s, p, st)
    case SLCommentRule => SLCommentLexed(s, p, st)
    case MLCommentRule => MLCommentLexed(s, p, st, allowNested)
    case ShebangRule => ShebangLexed(s, p, st)
    case IdRule => IdOrKeywordAt(s, p, st)
    case OperatorRule => OperatorLexed(s, p, st)
    case BOMRule => BOMLexed(p, st)
    case CommaRule => PunctuationLexed(CommaRule, p, st)
    case SemicolonRule => PunctuationLexed(SemicolonRule, p, st)
    case AtRule => PunctuationLexed(AtRule, p, st)
    case LParenRule => PunctuationLexed(LParenRule, p, st)
    case RParenRule => PunctuationLexed(RParenRule, p, st)
    case LBrackRule => PunctuationLexed(LBrackRule, p, st)
    case RBrackRule => PunctuationLexed(RBrackRule, p, st)
    case LBraceRule => PunctuationLexed(LBraceRule, p, st)
    case RBraceRule => PunctuationLexed(RBraceRule, p, st)
    case ErrorRule => ErrorLexed(s, p, st)
    case TQStringRule => Delegated(TQStringRule, Literal)
    case SQStringRule => Delegated(SQStringRule, Literal)
    case DQStringRule => Delegated(DQStringRule, Literal)
    case BQStringRule => Delegated(BQStringRule, BQString)
    case SymbolRule => Delegated(SymbolRule, Literal)
  }

  // The string and symbol rules, whose recognizers are not part of this
  // model: Token sets _type and hands over.
  predicate IsHandedOver(r: Rule)
  {
    r in {TQStringRule, SQStringRule, DQStringRule, BQStringRule, SymbolRule}
  }


  // The rule Dispatch picks fits the input.
  lemma DispatchSeen(s: Input, p: nat)
    requires p <= |s|
    ensures RuleFits(Dispatch(s, p), s, p)
  {
  }

  // Token at p with _startPosition == p and _value cleared: the rule
  // Dispatch picks.
  function TokenAt(s: Input, p: nat, st: LexState, allowNested: bool): Lexed
    requires p <= |s|
  {
    DispatchSeen(s, p);
    RuleLexed(Dispatch(s, p), s, p, st, allowNested)
  }

  // ---- the lexer

  // EcsLexer's state: the cursor, and the fields its rules set.
  class EcsLexer {
    const cur: Cursor
    var tokenType: TokenType
    var value: TokenValue
    var textValue: seq<Char16>
    var startPosition: nat
    var allowPPAt: nat
    var lineStartAt: nat
    var allowNestedComments: bool

    ghost predicate Valid()
      reads this, cur
    {
      cur.Valid()
    }

    function State(): LexState
      reads this
    {
      LexState(allowPPAt, lineStartAt)
    }

    constructor (s: Input, allowNested: bool)
      ensures Valid() && cur.input == s && cur.pos == 0 && cur.errors == 0
      ensures allowPPAt == 0 && lineStartAt == 0 && startPosition == 0
      ensures allowNestedComments == allowNested && value == NoValue
    {
      cur := new Cursor(s);
      tokenType := Unknown;
      value := NoValue;
      textValue := [];
      startPosition := 0;
      allowPPAt := 0;
      lineStartAt := 0;
      allowNestedComments := allowNested;
    }

    // AllowPP: the token starts where _allowPPAt points, the position just
    // after the last newline or comment that can precede a directive.
    predicate AllowPP()
      reads this
      ensures AllowPP() <==> startPosition == allowPPAt
    {
      startPosition == allowPPAt
    }

    // Newline: the base class's newline, then _allowPPAt = InputPosition.
    method Newline()
      requires Valid()
      modifies this, cur
      ensures Valid()
      ensures cur.pos == NewlineEnd(cur.input, old(cur.pos))
      ensures cur.errors == old(cur.errors) + (if IsNewlineChar(LA(cur.input, old(cur.pos), 0)) then 0 else 1)
      ensures allowPPAt == cur.pos
      ensures tokenType == old(tokenType) && value == old(value) && textValue == old(textValue)
      ensures startPosition == old(startPosition) && lineStartAt == old(lineStartAt)
      ensures allowNestedComments == old(allowNestedComments)
    {
      cur.NewlineChars();
      allowPPAt := cur.pos;
    }

    // UTF_BOM: a byte order mark at the start of a line moves _lineStartAt
    // past it.
    method UTF_BOM()
      requires Valid() && cur.pos < |cur.input|
      modifies this, cur
      ensures Valid() && cur.pos == old(cur.pos) + 1 && cur.errors == old(cur.errors)
      ensures lineStartAt == (if old(lineStartAt) == startPosition then cur.pos else old(lineStartAt))
      ensures value == WhitespaceTag
      ensures tokenType == old(tokenType) && textValue == old(textValue) && startPosition == old(startPosition)
      ensures allowPPAt == old(allowPPAt) && allowNestedComments == old(allowNestedComments)
    {
      cur.Skip();
      if lineStartAt == startPosition {
        lineStartAt := cur.pos;
      }
      value := WhitespaceTag;
    }

    // SLComment, on "//": the rest of the line.
    method SLComment()
      requires Valid() && cur.pos + 2 <= |cur.input|
      modifies this, cur
      ensures Valid() && cur.errors == old(cur.errors)
      ensures cur.pos == LineEnd(cur.input, old(cur.pos) + 2)
      ensures value == WhitespaceTag
      ensures tokenType == old(tokenType) && textValue == old(textValue) && startPosition == old(startPosition)
      ensures allowPPAt == old(allowPPAt) && lineStartAt == old(lineStartAt)
      ensures allowNestedComments == old(allowNestedComments)
    {
      cur.Skip();
      cur.Skip();
      cur.SkipLine();
      value := WhitespaceTag;
    }

    // MLComment, on "/*".
    method MLComment()
      requires Valid() && cur.pos + 2 <= |cur.input|
      modifies this, cur
      ensures Valid()
      ensures cur.pos == CommentFrom(cur.input, old(cur.pos), allowNestedComments, old(allowPPAt)).end
      ensures cur.errors == old(cur.errors) + CommentFrom(cur.input, old(cur.pos), allowNestedComments, old(allowPPAt)).errors
      ensures allowPPAt == CommentFrom(cur.input, old(cur.pos), allowNestedComments, old(allowPPAt)).allowPPAt
      ensures value == WhitespaceTag
      ensures tokenType == old(tokenType) && textValue == old(textValue) && startPosition == old(startPosition)
      ensures lineStartAt == old(lineStartAt) && allowNestedComments == old(allowNestedComments)
      decreases |cur.input| - cur.pos, 0
    {
      cur.Skip();
      cur.Skip();
      CommentLoop();
      cur.Match('*', '*');
      cur.Match('/', '/');
      value := WhitespaceTag;
    }

    // The loop of MLComment, after "/*": up to the "*/" or the end.
    method CommentLoop()
      requires Valid()
      modifies this, cur
      ensures Valid()
      ensures cur.pos == CommentBody(cur.input, old(cur.pos), allowNestedComments, old(allowPPAt)).end
      ensures cur.errors == old(cur.errors) + CommentBody(cur.input, old(cur.pos), allowNestedComments, old(allowPPAt)).errors
      ensures allowPPAt == CommentBody(cur.input, old(cur.pos), allowNestedComments, old(allowPPAt)).allowPPAt
      ensures tokenType == old(tokenType) && textValue == old(textValue) && startPosition == old(startPosition)
      ensures lineStartAt == old(lineStartAt) && allowNestedComments == old(allowNestedComments)
      decreases |cur.input| - cur.pos, 1
    {
      ghost var p0, e0 := cur.pos, cur.errors;
      ghost var b := CommentBody(cur.input, p0, allowNestedComments, allowPPAt);
      while true
        invariant Valid() && p0 <= cur.pos
        invariant CommentBody(cur.input, cur.pos, allowNestedComments, allowPPAt).end == b.end
        invariant CommentBody(cur.input, cur.pos, allowNestedComments, allowPPAt).allowPPAt == b.allowPPAt
        invariant cur.errors + CommentBody(cur.input, cur.pos, allowNestedComments, allowPPAt).errors == e0 + b.errors
        invariant tokenType == old(tokenType) && textValue == old(textValue) && startPosition == old(startPosition)
        invariant lineStartAt == old(lineStartAt) && allowNestedComments == old(allowNestedComments)
        decreases |cur.input| - cur.pos
      {
        var c := LA(cur.input, cur.pos, 0);
        if c == '*' as int {
          if LA(cur.input, cur.pos, 1) == '/' as int {
            break;
          }
          cur.Skip();
        } else if c == -1 {
          break;
        } else if c == '/' as int {
          if allowNestedComments && LA(cur.input, cur.pos, 1) == '*' as int {
            MLComment();
          } else {
            cur.Skip();
          }
        } else if IsNewlineChar(c) {
          Newline();
        } else {
          cur.Skip();
        }
      }
    }

    // Shebang, on "#!": the rest of the line, then its newline if any.
    method Shebang()
      requires Valid() && cur.pos + 2 <= |cur.input|
      modifies this, cur
      ensures Valid() && cur.errors == old(cur.errors)
      ensures cur.pos == ShebangEnd(cur.input, old(cur.pos))
      ensures allowPPAt == (if IsNewlineChar(LA(cur.input, LineEnd(cur.input, old(cur.pos) + 2), 0)) then cur.pos
                            else old(allowPPAt))
      ensures value == WhitespaceTag
      ensures tokenType == old(tokenType) && textValue == old(textValue) && startPosition == old(startPosition)
      ensures lineStartAt == old(lineStartAt) && allowNestedComments == old(allowNestedComments)
    {
      cur.Skip();
      cur.Skip();
      cur.SkipLine();
      if IsNewlineChar(LA(cur.input, cur.pos, 0)) {
        Newline();
      }
      value := WhitespaceTag;
    }

    // HexNumber, on "0x" at the token start.
    method HexNumber()
      requires Valid() && cur.pos + 2 <= |cur.input| && startPosition == cur.pos
      modifies cur
      ensures Valid()
      ensures cur.pos == EcsHexNumberScan(cur.input, old(cur.pos)).end
      ensures cur.errors == old(cur.errors) + EcsHexNumberScan(cur.input, old(cur.pos)).errors
    {
      ghost var p0, e0 := cur.pos, cur.errors;
      cur.Skip();
      cur.Skip();
      var _ := HexMantissaRule(cur, p0);
      ghost var h := HexMantissa(cur.input, p0);
      // Error(0, "Expected digits or '.'")
      cur.Check(cur.pos != startPosition + 2);
      ghost var k := if h.end == p0 + 2 then 1 else 0;
      var _ := ExponentRule(cur, 'P', 'p', Mantissa(h.end, h.isFloat, k), e0);
    }

    // `( HexNumber / BinNumber / DecNumber )` at the token start.
    method NumberBody()
      requires Valid() && startPosition == cur.pos
      modifies cur
      ensures Valid()
      ensures cur.pos == EcsBodyScan(cur.input, old(cur.pos)).end
      ensures cur.errors == old(cur.errors) + EcsBodyScan(cur.input, old(cur.pos)).errors
    {
      if BaseAt(cur.input, cur.pos) == 16 {
        HexNumber();
      } else if BaseAt(cur.input, cur.pos) == 2 {
        var _ := BinNumberRule(cur);
      } else {
        var _ := DecNumberRule(cur);
      }
    }

    // The suffix after the digits, and _value.
    method Suffix()
      requires Valid()
      modifies this, cur
      ensures Valid() && cur.errors == old(cur.errors)
      ensures cur.pos == SuffixAt(cur.input, old(cur.pos)).end
      ensures value == NamedSymbol(SuffixAt(cur.input, old(cur.pos)).symbol)
      ensures tokenType == old(tokenType) && textValue == old(textValue) && startPosition == old(startPosition)
      ensures allowPPAt == old(allowPPAt) && lineStartAt == old(lineStartAt)
      ensures allowNestedComments == old(allowNestedComments)
    {
      value := NamedSymbol("_");
      var c := LA(cur.input, cur.pos, 0);
      if IsOneOf(c, 'F', 'f') {
        cur.Skip();
        value := NamedSymbol("_f");
      } else if IsOneOf(c, 'D', 'd') {
        cur.Skip();
        value := NamedSymbol("_d");
      } else if IsOneOf(c, 'M', 'm') {
        cur.Skip();
        value := NamedSymbol("_m");
      } else if IsOneOf(c, 'L', 'l') {
        cur.Skip();
        value := NamedSymbol("_L");
        if IsOneOf(LA(cur.input, cur.pos, 0), 'U', 'u') {
          cur.Skip();
          value := NamedSymbol("_uL");
        }
      } else if IsOneOf(c, 'U', 'u') {
        cur.Skip();
        value := NamedSymbol("_u");
        if IsOneOf(LA(cur.input, cur.pos, 0), 'L', 'l') {
          cur.Skip();
          value := NamedSymbol("_uL");
        }
      } else if IsOneOf(c, 'Z', 'z') {
        cur.Skip();
        value := NamedSymbol("_z");
      }
    }

    // Number at the token start: the body, _textValue = Text(), then the
    // suffix.
    method Number()
      requires Valid() && startPosition == cur.pos
      modifies this, cur
      ensures Valid()
      ensures cur.pos == NumberAt(cur.input, old(cur.pos)).end
      ensures cur.errors == old(cur.errors) + NumberAt(cur.input, old(cur.pos)).errors
      ensures textValue == NumberAt(cur.input, old(cur.pos)).text
      ensures value == NumberAt(cur.input, old(cur.pos)).value
      ensures tokenType == old(tokenType) && startPosition == old(startPosition)
      ensures allowPPAt == old(allowPPAt) && lineStartAt == old(lineStartAt)
      ensures allowNestedComments == old(allowNestedComments)
    {
      NumberBody();
      textValue := cur.input[startPosition..cur.pos];
      Suffix();
    }

    // Operator: the switch's choice, the characters it skips, and the error
    // of a failed Match.
    method Operator()
      requires Valid()
      modifies this, cur
      ensures Valid()
      ensures cur.pos == old(cur.pos) + OperatorTree(cur.input, old(cur.pos)).length
      ensures cur.errors == old(cur.errors) + OperatorTree(cur.input, old(cur.pos)).errors
      ensures tokenType == OperatorAt(OperatorTree(cur.input, old(cur.pos)).alt).tokenType
      ensures value == OperatorAt(OperatorTree(cur.input, old(cur.pos)).alt).value
      ensures textValue == old(textValue) && startPosition == old(startPosition)
      ensures allowPPAt == old(allowPPAt) && lineStartAt == old(lineStartAt)
      ensures allowNestedComments == old(allowNestedComments)
    {
      var r := OperatorTree(cur.input, cur.pos);
      OperatorInside(cur.input, cur.pos);
      ghost var p0 := cur.pos;
      for i := 0 to r.length
        invariant cur.Valid() && cur.pos == p0 + i && cur.errors == old(cur.errors)
        modifies cur
      {
        cur.Skip();
      }
      cur.Check(r.errors == 0);
      var op := OperatorAt(r.alt);
      tokenType := op.tokenType;
      value := op.value;
    }

    // RestOfPPLine: the text up to the end of the line.
    method RestOfPPLine() returns (text: seq<Char16>)
      requires Valid()
      modifies cur
      ensures Valid() && cur.errors == old(cur.errors)
      ensures cur.pos == LineEnd(cur.input, old(cur.pos))
      ensures text == cur.input[old(cur.pos)..cur.pos]
    {
      var start := cur.pos;
      cur.SkipLine();
      text := cur.input[start..cur.pos];
    }

    // IdOrKeyword at the token start: a keyword sets _type and _value;
    // otherwise Id() takes over, which `recognised == false` stands for.
    method IdOrKeyword() returns (recognised: bool)
      requires Valid() && startPosition == cur.pos
      modifies this, cur
      ensures Valid()
      ensures var r := IdOrKeywordAt(cur.input, old(cur.pos), old(State()));
        (recognised <==> r.Lexed?)
        && (r.Lexed? ==> Holds(r, old(cur.pos), old(cur.errors)))
        && (r.Delegated? ==> cur.pos == old(cur.pos) && cur.errors == old(cur.errors)
                             && tokenType == old(tokenType) && value == old(value))
      ensures textValue == old(textValue) && startPosition == old(startPosition)
      ensures allowPPAt == old(allowPPAt) && lineStartAt == old(lineStartAt)
      ensures allowNestedComments == old(allowNestedComments)
    {
      var k := KeywordAt(cur.input, cur.pos, AllowPP());
      if k.None? {
        return false;
      }
      ghost var p0 := cur.pos;
      while InWordSet(LA(cur.input, cur.pos, 0))
        invariant cur.Valid() && p0 <= cur.pos && cur.errors == old(cur.errors)
        invariant WordEnd(cur.input, cur.pos) == WordEnd(cur.input, p0)
        decreases |cur.input| - cur.pos
        modifies cur
      {
        cur.Skip();
      }
      tokenType := k.value.tokenType;
      if k.value.restOfLine {
        var text := RestOfPPLine();
        value := LineText(text);
      } else {
        value := k.value.value;
      }
      recognised := true;
      assert State() == old(State());
    }

    // The lexer holds the token r that a rule ran from p0 with e0 errors
    // before it.
    ghost predicate Holds(r: Lexed, p0: nat, e0: nat)
      reads this, cur
    {
      r.Lexed? && r.token.start == p0 && cur.pos == p0 + r.token.length && cur.errors == e0 + r.errors
      && tokenType == r.token.tokenType && value == r.token.value && State() == r.state
    }

    // What Token leaves behind for r, the token TokenAt gives at p0 with the
    // fields st0 and e0 errors before it: the token itself, or, for a
    // recognizer outside this model, handedTo naming it with _type set and
    // nothing consumed.
    ghost predicate Yields(r: Lexed, handedTo: Option<Rule>, p0: nat, e0: nat, st0: LexState)
      reads this, cur
    {
      (r.Lexed? ==> handedTo.None? && Holds(r, p0, e0))
      && (r.Delegated? ==> handedTo == Some(r.rule) && tokenType == r.tokenType
                           && cur.pos == p0 && cur.errors == e0 && value == NoValue && State() == st0)
    }

    // Token: one token at the current position, which is _startPosition,
    // with _value cleared beforehand.
    method Token() returns (handedTo: Option<Rule>)
      requires Valid() && startPosition == cur.pos && value == NoValue
      modifies this, cur
      ensures Valid()
      ensures Yields(TokenAt(cur.input, old(cur.pos), old(State()), allowNestedComments),
                     handedTo, old(cur.pos), old(cur.errors), old(State()))
      ensures textValue == (if Dispatch(cur.input, old(cur.pos)) == NumberRule
                            then NumberAt(cur.input, old(cur.pos)).text else old(textValue))
      ensures startPosition == old(startPosition) && allowNestedComments == old(allowNestedComments)
    {
      var rule := Dispatch(cur.input, cur.pos);
      DispatchSeen(cur.input, cur.pos);
      if rule.NewlineRule? || rule.NumberRule? || rule.SLCommentRule? || rule.MLCommentRule?
         || rule.ShebangRule? || rule.IdRule? || rule.OperatorRule? {
        handedTo := LongRule(rule);
      } else {
        handedTo := ShortRule(rule);
      }
    }

    // The rules of Token that call a rule method of their own.
    method LongRule(rule: Rule) returns (handedTo: Option<Rule>)
      requires Valid() && startPosition == cur.pos && value == NoValue
      requires RuleFits(rule, cur.input, cur.pos)
      requires rule.NewlineRule? || rule.NumberRule? || rule.SLCommentRule? || rule.MLCommentRule?
               || rule.ShebangRule? || rule.IdRule? || rule.OperatorRule?
      modifies this, cur
      ensures Valid()
      ensures Yields(RuleLexed(rule, cur.input, old(cur.pos), old(State()), allowNestedComments),
                     handedTo, old(cur.pos), old(cur.errors), old(State()))
      ensures textValue == (if rule.NumberRule? then NumberAt(cur.input, old(cur.pos)).text else old(textValue))
      ensures startPosition == old(startPosition) && allowNestedComments == old(allowNestedComments)
    {
      handedTo := None;
      match rule {
        case NewlineRule => TokenNewline();
        case NumberRule => TokenNumber();
        case SLCommentRule => TokenSLComment();
        case MLCommentRule => TokenMLComment();
        case ShebangRule => TokenShebang();
        case IdRule => handedTo := TokenId();
        case OperatorRule => TokenOperator();
      }
    }

    // Token on NewlineRule: Newline.
    method TokenNewline()
      requires Valid() && startPosition == cur.pos && value == NoValue
      requires IsNewlineChar(LA(cur.input, cur.pos, 0))
      modifies this, cur
      ensures Valid()
      ensures Holds(NewlineLexed(cur.input, old(cur.pos), old(State())), old(cur.pos), old(cur.errors))
      ensures textValue == old(textValue)
      ensures startPosition == old(startPosition) && allowNestedComments == old(allowNestedComments)
    {
      ghost var r := NewlineLexed(cur.input, cur.pos, State());
      tokenType := TokenType.Newline;
      Newline();
      value := WhitespaceTag;
      assert cur.pos == old(cur.pos) + r.token.length && State() == r.state;
    }

    // Token on NumberRule: Number.
    method TokenNumber()
      requires Valid() && startPosition == cur.pos && value == NoValue
      modifies this, cur
      ensures Valid()
      ensures Holds(NumberLexed(cur.input, old(cur.pos), old(State())), old(cur.pos), old(cur.errors))
      ensures textValue == NumberAt(cur.input, old(cur.pos)).text
      ensures startPosition == old(startPosition) && allowNestedComments == old(allowNestedComments)
    {
      ghost var r := NumberLexed(cur.input, cur.pos, State());
      tokenType := Literal;
      Number();
      assert cur.pos == old(cur.pos) + r.token.length && State() == r.state;
    }

    // Token on SLCommentRule: SLComment.
    method TokenSLComment()
      requires Valid() && startPosition == cur.pos && value == NoValue
      requires cur.pos + 2 <= |cur.input|
      modifies this, cur
      ensures Valid()
      ensures Holds(SLCommentLexed(cur.input, old(cur.pos), old(State())), old(cur.pos), old(cur.errors))
      ensures textValue == old(textValue)
      ensures startPosition == old(startPosition) && allowNestedComments == old(allowNestedComments)
    {
      ghost var r := SLCommentLexed(cur.input, cur.pos, State());
      tokenType := TokenType.SLComment;
      SLComment();
      assert cur.pos == old(cur.pos) + r.token.length && State() == r.state;
    }

    // Token on MLCommentRule: MLComment.
    method TokenMLComment()
      requires Valid() && startPosition == cur.pos && value == NoValue
      requires cur.pos + 2 <= |cur.input|
      modifies this, cur
      ensures Valid()
      ensures Holds(MLCommentLexed(cur.input, old(cur.pos), old(State()), allowNestedComments),
                    old(cur.pos), old(cur.errors))
      ensures textValue == old(textValue)
      ensures startPosition == old(startPosition) && allowNestedComments == old(allowNestedComments)
    {
      ghost var r := MLCommentLexed(cur.input, cur.pos, State(), allowNestedComments);
      tokenType := TokenType.MLComment;
      MLComment();
      assert cur.pos == old(cur.pos) + r.token.length && State() == r.state;
    }

    // Token on ShebangRule: Shebang.
    method TokenShebang()
      requires Valid() && startPosition == cur.pos && value == NoValue
      requires cur.pos + 2 <= |cur.input|
      modifies this, cur
      ensures Valid()
      ensures Holds(ShebangLexed(cur.input, old(cur.pos), old(State())), old(cur.pos), old(cur.errors))
      ensures textValue == old(textValue)
      ensures startPosition == old(startPosition) && allowNestedComments == old(allowNestedComments)
    {
      ghost var r := ShebangLexed(cur.input, cur.pos, State());
      tokenType := TokenType.Shebang;
      Shebang();
      assert cur.pos == old(cur.pos) + r.token.length && State() == r.state;
    }

    // Token on IdRule: IdOrKeyword, or the hand-over to Id.
    method TokenId() returns (handedTo: Option<Rule>)
      requires Valid() && startPosition == cur.pos && value == NoValue
      modifies this, cur
      ensures Valid()
      ensures Yields(IdOrKeywordAt(cur.input, old(cur.pos), old(State())),
                     handedTo, old(cur.pos), old(cur.errors), old(State()))
      ensures textValue == old(textValue)
      ensures startPosition == old(startPosition) && allowNestedComments == old(allowNestedComments)
    {
      ghost var r := IdOrKeywordAt(cur.input, cur.pos, State());
      handedTo := None;
      tokenType := Id;
      var recognised := IdOrKeyword();
      if !recognised {
        handedTo := Some(IdRule);
        assert r == Delegated(IdRule, Id);
      } else {
        assert Holds(r, old(cur.pos), old(cur.errors));
      }
    }

    // Token on OperatorRule: Operator.
    method TokenOperator()
      requires Valid()
      modifies this, cur
      ensures Valid()
      ensures Holds(OperatorLexed(cur.input, old(cur.pos), old(State())), old(cur.pos), old(cur.errors))
      ensures textValue == old(textValue)
      ensures startPosition == old(startPosition) && allowNestedComments == old(allowNestedComments)
    {
      ghost var r := OperatorLexed(cur.input, cur.pos, State());
      Operator();
      assert cur.pos == old(cur.pos) + r.token.length && State() == r.state;
    }

    // The rules of Token that skip one character, report an error, or hand
    // over to a recognizer outside this model.
    method ShortRule(rule: Rule) returns (handedTo: Option<Rule>)
      requires Valid() && startPosition == cur.pos && value == NoValue
      requires RuleFits(rule, cur.input, cur.pos)
      requires !(rule.NewlineRule? || rule.NumberRule? || rule.SLCommentRule? || rule.MLCommentRule?
                 || rule.ShebangRule? || rule.IdRule? || rule.OperatorRule?)
      modifies this, cur
      ensures Valid()
      ensures Yields(RuleLexed(rule, cur.input, old(cur.pos), old(State()), allowNestedComments),
                     handedTo, old(cur.pos), old(cur.errors), old(State()))
      ensures textValue == old(textValue)
      ensures startPosition == old(startPosition) && allowNestedComments == old(allowNestedComments)
    {
      handedTo := None;
      if rule.BOMRule? {
        TokenBOM();
      } else if IsPunctuation(rule) {
        TokenPunctuation(rule);
      } else if IsHandedOver(rule) {
        handedTo := HandOver(rule);
      } else {
        assert rule == ErrorRule;
        TokenError();
      }
    }

    // The rules whose recognizers are not part of this model: Token sets
    // _type and hands over.
    method HandOver(rule: Rule) returns (handedTo: Option<Rule>)
      requires Valid() && startPosition == cur.pos && value == NoValue
      requires IsHandedOver(rule)
      modifies this
      ensures Valid()
      ensures Yields(RuleLexed(rule, cur.input, old(cur.pos), old(State()), allowNestedComments),
                     handedTo, old(cur.pos), old(cur.errors), old(State()))
      ensures textValue == old(textValue)
      ensures startPosition == old(startPosition) && allowNestedComments == old(allowNestedComments)
    {
      match rule {
        case TQStringRule =>
          tokenType := Literal;
          handedTo := Some(TQStringRule);
        case SQStringRule =>
          tokenType := Literal;
          handedTo := Some(SQStringRule);
        case DQStringRule =>
          tokenType := Literal;
          handedTo := Some(DQStringRule);
        case BQStringRule =>
          tokenType := BQString;
          handedTo := Some(BQStringRule);
        case SymbolRule =>
          tokenType := Literal;
          handedTo := Some(SymbolRule);
      }
    }

    // Token on BOMRule: UTF_BOM.
    method TokenBOM()
      requires Valid() && startPosition == cur.pos && cur.pos < |cur.input|
      modifies this, cur
      ensures Valid()
      ensures Holds(BOMLexed(old(cur.pos), old(State())), old(cur.pos), old(cur.errors))
      ensures textValue == old(textValue)
      ensures startPosition == old(startPosition) && allowNestedComments == old(allowNestedComments)
    {
      ghost var r := BOMLexed(cur.pos, State());
      tokenType := Spaces;
      UTF_BOM();
      assert cur.pos == old(cur.pos) + r.token.length && State() == r.state;
    }

    // Token on a punctuation mark: skip it.
    method TokenPunctuation(rule: Rule)
      requires Valid() && value == NoValue && cur.pos < |cur.input| && IsPunctuation(rule)
      modifies this, cur
      ensures Valid()
      ensures Holds(PunctuationLexed(rule, old(cur.pos), old(State())), old(cur.pos), old(cur.errors))
      ensures textValue == old(textValue)
      ensures startPosition == old(startPosition) && allowNestedComments == old(allowNestedComments)
    {
      ghost var r := PunctuationLexed(rule, cur.pos, State());
      match rule {
        case CommaRule =>
          cur.Skip();
          tokenType := Comma;
          value := CodeSymbol("Comma");
        case SemicolonRule =>
          cur.Skip();
          tokenType := Semicolon;
          value := CodeSymbol("Semicolon");
        case AtRule =>
          cur.Skip();
          tokenType := At;
          value := CodeSymbol("AtSign");
        case LParenRule =>
          tokenType := LParen;
          cur.Skip();
        case RParenRule =>
          tokenType := RParen;
          cur.Skip();
        case LBrackRule =>
          tokenType := LBrack;
          cur.Skip();
        case RBrackRule =>
          tokenType := RBrack;
          cur.Skip();
        case LBraceRule =>
          tokenType := LBrace;
          cur.Skip();
        case RBraceRule =>
          tokenType := RBrace;
          cur.Skip();
      }
      assert cur.pos == old(cur.pos) + r.token.length && State() == r.state;
    }

    // Token on ErrorRule: Error(0, "Unrecognized token"), then MatchExcept().
    method TokenError()
      requires Valid() && value == NoValue
      modifies this, cur
      ensures Valid()
      ensures Holds(ErrorLexed(cur.input, old(cur.pos), old(State())), old(cur.pos), old(cur.errors))
      ensures textValue == old(textValue)
      ensures startPosition == old(startPosition) && allowNestedComments == old(allowNestedComments)
    {
      ghost var r := ErrorLexed(cur.input, cur.pos, State());
      tokenType := Unknown;
      cur.Check(false);
      cur.MatchExcept();
      assert cur.pos == old(cur.pos) + r.token.length && State() == r.state;
    }
  }

  // OperatorTree stays inside the input.
  lemma OperatorInside(s: Input, p: nat)
    requires p <= |s|
    ensures p + OperatorTree(s, p).length <= |s|
  {
    var r := OperatorTree(s, p);
    if r.errors == 0 {
      TreeMatches(s, p);
      assert LA(s, p, r.length - 1) != -1;
    }
  }
}
