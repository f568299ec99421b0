// The token types EcsLexer assigns (TokenType in the EC# parser) and the
// values it stores in _value.
module EcsTokens {
  import opened Chars
  import opened LexerCore

  datatype TokenType =
    // trivia and punctuation
    | Spaces | Newline | SLComment | MLComment | Shebang | Unknown
    | Literal | Id | BQString | Comma | Semicolon | At
    | LParen | RParen | LBrack | RBrack | LBrace | RBrace
    // operators
    | Dot | DotDot | CompoundAssign | LEGE | GT | LT | Compare | And | AndBits
    | PipeArrow | OrXor | OrBits | XorBits | QuickBind | ColonColon | Colon
    | Forward | EqNeq | LambdaArrow | Assign | Not | NotBits | Power | Mul | DivMod
    | Add | IncDec | PtrArrow | Sub | NullCoalesce | NullDot | QuestionMark
    | Substitute | Backslash
    // keywords
    | AttrKeyword | TypeKeyword | ContextualKeyword | LinqKeyword
    | As | Base | Break | Case | Catch | CheckedOrUnchecked | Class | Continue
    | Default | Delegate | Do | Else | Enum | Event | Finally | Fixed | For | Foreach
    | Goto | If | In | Interface | Is | Lock | Namespace | New | Operator | Return
    | Sizeof | Stackalloc | Struct | Switch | This | Throw | Try | Typeof | Using | While
    // preprocessor and C# interactive directives
    | PPif | PPelse | PPelif | PPendif | PPdefine | PPundef | PPpragma | PPline
    | PPerror | PPwarning | PPnote | PPregion | PPendregion | PPnullable
    | CSIreference | CSIload | CSIclear | CSIhelp | CSIreset

  // _value: WhitespaceTag.Value; a member of EcsCodeSymbols (S.Dot, S.If,
  // ...); a symbol made by name (GSymbol.Get("var"), the suffix symbols "_",
  // "_f", ...); G.BoxedTrue and G.BoxedFalse; or the text RestOfPPLine
  // returns.
  datatype TokenValue =
    | NoValue
    | WhitespaceTag
    | CodeSymbol(member: string)
    | NamedSymbol(name: string)
    | BoxedTrue
    | BoxedFalse
    | LineText(text: seq<Char16>)

  datatype Token = Token(tokenType: TokenType, start: nat, length: nat, value: TokenValue)

  // The characters of t are at p.
  predicate MatchesAt(s: Input, p: nat, t: string)
  {
    forall k :: 0 <= k < |t| ==> LA(s, p, k) == t[k] as int
  }

  // MatchesAt for a text of at most four characters, spelled out.
  lemma MatchesAtShort(s: Input, p: nat, t: string)
    requires |t| <= 4
    ensures MatchesAt(s, p, t) <==>
      (|t| > 0 ==> LA(s, p, 0) == t[0] as int) && (|t| > 1 ==> LA(s, p, 1) == t[1] as int)
      && (|t| > 2 ==> LA(s, p, 2) == t[2] as int) && (|t| > 3 ==> LA(s, p, 3) == t[3] as int)
  {
    if (|t| > 0 ==> LA(s, p, 0) == t[0] as int) && (|t| > 1 ==> LA(s, p, 1) == t[1] as int)
      && (|t| > 2 ==> LA(s, p, 2) == t[2] as int) && (|t| > 3 ==> LA(s, p, 3) == t[3] as int)
    {
      forall k | 0 <= k < |t|
        ensures LA(s, p, k) == t[k] as int
      {
        if k == 0 {
        } else if k == 1 {
        } else if k == 2 {
        } else {
        }
      }
    }
  }
}
