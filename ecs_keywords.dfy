// EcsLexer's IdOrKeyword: a keyword is recognised only when no character
// of [#0-9A-Z_a-z] follows it, and a '#' directive only when AllowPP holds.
// The generated code decides this with a character-by-character switch; the
// model takes the word the switch could match (the longest run of those
// characters) and looks it up in the grammar's table of keywords.
module EcsKeywords {
  import opened Wrappers
  import opened Chars
  import opened LexerCore
  import opened EcsTokens

  // IdOrKeyword_set0 = [#0-9A-Z_a-z]
  predicate InWordSet(c: int)
  {
    c == '#' as int || '0' as int <= c <= '9' as int || 'A' as int <= c <= 'Z' as int
    || c == '_' as int || 'a' as int <= c <= 'z' as int
  }

  predicate IsWordText(w: string)
  {
    |w| > 0 && forall i :: 0 <= i < |w| ==> InWordSet(w[i] as int)
  }

  // A keyword: whether it needs AllowPP, whether its value is the rest of
  // the line (RestOfPPLine), and the _type and _value it sets.
  datatype KeywordEntry = KeywordEntry(pp: bool, restOfLine: bool, tokenType: TokenType, value: TokenValue)

  // The keyword alternatives of IdOrKeyword, by first character as the
  // generated switch has them.
  function KeywordInfo(w: string): (r: Option<KeywordEntry>)
    ensures r.Some? ==> IsWordText(w) && (r.value.pp <==> w[0] == '#')
    ensures r.Some? ==> 'a' <= w[0] <= 'z' || (w[0] == '#' && |w| >= 2)
  {
    if w == [] then None
    else
      match w[0]
      case 'a' => KeywordsA(w)
      case 'b' => KeywordsB(w)
      case 'c' => KeywordsC(w)
      case 'd' => KeywordsD(w)
      case 'e' => KeywordsE(w)
      case 'f' => KeywordsF(w)
      case 'g' => KeywordsG(w)
      case 'i' => KeywordsI(w)
      case 'l' => KeywordsL(w)
      case 'n' => KeywordsN(w)
      case 'o' => KeywordsO(w)
      case 'p' => KeywordsP(w)
      case 'r' => KeywordsR(w)
      case 's' => KeywordsS(w)
      case 't' => KeywordsT(w)
      case 'u' => KeywordsU(w)
      case 'v' => KeywordsV(w)
      case 'w' => KeywordsW(w)
      case '#' => KeywordsHash(w)
      case 'm' => KeywordsM(w)
      case 'j' => KeywordsJ(w)
      case _ => None
  }

  function KeywordsA(w: string): (r: Option<KeywordEntry>)
    ensures r.Some? ==> IsWordText(w) && (r.value.pp <==> w[0] == '#')
  {
    match w
      case "abstract" => Some(KeywordEntry(false, false, AttrKeyword, CodeSymbol("Abstract")))
      case "as" => Some(KeywordEntry(false, false, As, CodeSymbol("As")))
      case "alias" => Some(KeywordEntry(false, false, ContextualKeyword, NamedSymbol("alias")))
      case "assembly" => Some(KeywordEntry(false, false, ContextualKeyword, NamedSymbol("assembly")))
      case "ascending" => Some(KeywordEntry(false, false, LinqKeyword, NamedSymbol("ascending")))
      case "await" => Some(KeywordEntry(false, false, ContextualKeyword, NamedSymbol("await")))
      case _ => None
  }

  function KeywordsB(w: string): (r: Option<KeywordEntry>)
    ensures r.Some? ==> IsWordText(w) && (r.value.pp <==> w[0] == '#')
  {
    match w
      case "base" => Some(KeywordEntry(false, false, Base, CodeSymbol("Base")))
      case "bool" => Some(KeywordEntry(false, false, TypeKeyword, CodeSymbol("Bool")))
      case "break" => Some(KeywordEntry(false, false, Break, CodeSymbol("Break")))
      case "byte" => Some(KeywordEntry(false, false, TypeKeyword, CodeSymbol("UInt8")))
      case "by" => Some(KeywordEntry(false, false, LinqKeyword, NamedSymbol("by")))
      case _ => None
  }

  function KeywordsC(w: string): (r: Option<KeywordEntry>)
    ensures r.Some? ==> IsWordText(w) && (r.value.pp <==> w[0] == '#')
  {
    match w
      case "case" => Some(KeywordEntry(false, false, Case, CodeSymbol("Case")))
      case "catch" => Some(KeywordEntry(false, false, Catch, CodeSymbol("Catch")))
      case "char" => Some(KeywordEntry(false, false, TypeKeyword, CodeSymbol("Char")))
      case "checked" => Some(KeywordEntry(false, false, CheckedOrUnchecked, CodeSymbol("Checked")))
      case "class" => Some(KeywordEntry(false, false, Class, CodeSymbol("Class")))
      case "const" => Some(KeywordEntry(false, false, AttrKeyword, CodeSymbol("Const")))
      case "continue" => Some(KeywordEntry(false, false, Continue, CodeSymbol("Continue")))
      case _ => None
  }

  function KeywordsD(w: string): (r: Option<KeywordEntry>)
    ensures r.Some? ==> IsWordText(w) && (r.value.pp <==> w[0] == '#')
  {
    match w
      case "decimal" => Some(KeywordEntry(false, false, TypeKeyword, CodeSymbol("Decimal")))
      case "default" => Some(KeywordEntry(false, false, Default, CodeSymbol("Default")))
      case "delegate" => Some(KeywordEntry(false, false, Delegate, CodeSymbol("Delegate")))
      case "double" => Some(KeywordEntry(false, false, TypeKeyword, CodeSymbol("Double")))
      case "do" => Some(KeywordEntry(false, false, Do, CodeSymbol("Do")))
      case "dynamic" => Some(KeywordEntry(false, false, ContextualKeyword, NamedSymbol("dynamic")))
      case "descending" => Some(KeywordEntry(false, false, LinqKeyword, NamedSymbol("descending")))
      case _ => None
  }

  function KeywordsE(w: string): (r: Option<KeywordEntry>)
    ensures r.Some? ==> IsWordText(w) && (r.value.pp <==> w[0] == '#')
  {
    match w
      case "else" => Some(KeywordEntry(false, false, Else, CodeSymbol("Else")))
      case "enum" => Some(KeywordEntry(false, false, Enum, CodeSymbol("Enum")))
      case "event" => Some(KeywordEntry(false, false, Event, CodeSymbol("Event")))
      case "explicit" => Some(KeywordEntry(false, false, AttrKeyword, CodeSymbol("Explicit")))
      case "extern" => Some(KeywordEntry(false, false, AttrKeyword, CodeSymbol("Extern")))
      case "equals" => Some(KeywordEntry(false, false, LinqKeyword, NamedSymbol("equals")))
      case _ => None
  }

  function KeywordsF(w: string): (r: Option<KeywordEntry>)
    ensures r.Some? ==> IsWordText(w) && (r.value.pp <==> w[0] == '#')
  {
    match w
      case "false" => Some(KeywordEntry(false, false, Literal, BoxedFalse))
      case "finally" => Some(KeywordEntry(false, false, Finally, CodeSymbol("Finally")))
      case "fixed" => Some(KeywordEntry(false, false, Fixed, CodeSymbol("Fixed")))
      case "float" => Some(KeywordEntry(false, false, TypeKeyword, CodeSymbol("Single")))
      case "foreach" => Some(KeywordEntry(false, false, Foreach, CodeSymbol("ForEach")))
      case "for" => Some(KeywordEntry(false, false, For, CodeSymbol("For")))
      case "from" => Some(KeywordEntry(false, false, LinqKeyword, NamedSymbol("from")))
      case _ => None
  }

  function KeywordsG(w: string): (r: Option<KeywordEntry>)
    ensures r.Some? ==> IsWordText(w) && (r.value.pp <==> w[0] == '#')
  {
    match w
      case "goto" => Some(KeywordEntry(false, false, Goto, CodeSymbol("Goto")))
      case "group" => Some(KeywordEntry(false, false, LinqKeyword, NamedSymbol("group")))
      case _ => None
  }

  function KeywordsI(w: string): (r: Option<KeywordEntry>)
    ensures r.Some? ==> IsWordText(w) && (r.value.pp <==> w[0] == '#')
  {
    match w
      case "if" => Some(KeywordEntry(false, false, If, CodeSymbol("If")))
      case "implicit" => Some(KeywordEntry(false, false, AttrKeyword, CodeSymbol("Implicit")))
      case "interface" => Some(KeywordEntry(false, false, Interface, CodeSymbol("Interface")))
      case "internal" => Some(KeywordEntry(false, false, AttrKeyword, CodeSymbol("Internal")))
      case "int" => Some(KeywordEntry(false, false, TypeKeyword, CodeSymbol("Int32")))
      case "in" => Some(KeywordEntry(false, false, In, CodeSymbol("In")))
      case "is" => Some(KeywordEntry(false, false, Is, CodeSymbol("Is")))
      case "into" => Some(KeywordEntry(false, false, LinqKeyword, NamedSymbol("into")))
      case _ => None
  }

  function KeywordsL(w: string): (r: Option<KeywordEntry>)
    ensures r.Some? ==> IsWordText(w) && (r.value.pp <==> w[0] == '#')
  {
    match w
      case "lock" => Some(KeywordEntry(false, false, Lock, CodeSymbol("Lock")))
      case "long" => Some(KeywordEntry(false, false, TypeKeyword, CodeSymbol("Int64")))
      case "let" => Some(KeywordEntry(false, false, LinqKeyword, NamedSymbol("let")))
      case _ => None
  }

  function KeywordsN(w: string): (r: Option<KeywordEntry>)
    ensures r.Some? ==> IsWordText(w) && (r.value.pp <==> w[0] == '#')
  {
    match w
      case "namespace" => Some(KeywordEntry(false, false, Namespace, CodeSymbol("Namespace")))
      case "new" => Some(KeywordEntry(false, false, New, CodeSymbol("New")))
      case "null" => Some(KeywordEntry(false, false, Literal, NoValue))
      case _ => None
  }

  function KeywordsO(w: string): (r: Option<KeywordEntry>)
    ensures r.Some? ==> IsWordText(w) && (r.value.pp <==> w[0] == '#')
  {
    match w
      case "object" => Some(KeywordEntry(false, false, TypeKeyword, CodeSymbol("Object")))
      case "operator" => Some(KeywordEntry(false, false, Operator, CodeSymbol("Operator")))
      case "out" => Some(KeywordEntry(false, false, AttrKeyword, CodeSymbol("Out")))
      case "override" => Some(KeywordEntry(false, false, AttrKeyword, CodeSymbol("Override")))
      case "on" => Some(KeywordEntry(false, false, LinqKeyword, NamedSymbol("on")))
      case "orderby" => Some(KeywordEntry(false, false, LinqKeyword, NamedSymbol("orderby")))
      case _ => None
  }

  function KeywordsP(w: string): (r: Option<KeywordEntry>)
    ensures r.Some? ==> IsWordText(w) && (r.value.pp <==> w[0] == '#')
  {
    match w
      case "params" => Some(KeywordEntry(false, false, AttrKeyword, CodeSymbol("Params")))
      case "private" => Some(KeywordEntry(false, false, AttrKeyword, CodeSymbol("Private")))
      case "protected" => Some(KeywordEntry(false, false, AttrKeyword, CodeSymbol("Protected")))
      case "public" => Some(KeywordEntry(false, false, AttrKeyword, CodeSymbol("Public")))
      case _ => None
  }

  function KeywordsR(w: string): (r: Option<KeywordEntry>)
    ensures r.Some? ==> IsWordText(w) && (r.value.pp <==> w[0] == '#')
  {
    match w
      case "readonly" => Some(KeywordEntry(false, false, AttrKeyword, CodeSymbol("Readonly")))
      case "ref" => Some(KeywordEntry(false, false, AttrKeyword, CodeSymbol("Ref")))
      case "return" => Some(KeywordEntry(false, false, Return, CodeSymbol("Return")))
      case _ => None
  }

  function KeywordsS(w: string): (r: Option<KeywordEntry>)
    ensures r.Some? ==> IsWordText(w) && (r.value.pp <==> w[0] == '#')
  {
    match w
      case "sbyte" => Some(KeywordEntry(false, false, TypeKeyword, CodeSymbol("Int8")))
      case "sealed" => Some(KeywordEntry(false, false, AttrKeyword, CodeSymbol("Sealed")))
      case "short" => Some(KeywordEntry(false, false, TypeKeyword, CodeSymbol("Int16")))
      case "sizeof" => Some(KeywordEntry(false, false, Sizeof, CodeSymbol("Sizeof")))
      case "stackalloc" => Some(KeywordEntry(false, false, Stackalloc, CodeSymbol("StackAlloc")))
      case "static" => Some(KeywordEntry(false, false, AttrKeyword, CodeSymbol("Static")))
      case "string" => Some(KeywordEntry(false, false, TypeKeyword, CodeSymbol("String")))
      case "struct" => Some(KeywordEntry(false, false, Struct, CodeSymbol("Struct")))
      case "switch" => Some(KeywordEntry(false, false, Switch, CodeSymbol("SwitchStmt")))
      case "select" => Some(KeywordEntry(false, false, LinqKeyword, NamedSymbol("select")))
      case _ => None
  }

  function KeywordsT(w: string): (r: Option<KeywordEntry>)
    ensures r.Some? ==> IsWordText(w) && (r.value.pp <==> w[0] == '#')
  {
    match w
      case "this" => Some(KeywordEntry(false, false, This, CodeSymbol("This")))
      case "throw" => Some(KeywordEntry(false, false, Throw, CodeSymbol("Throw")))
      case "true" => Some(KeywordEntry(false, false, Literal, BoxedTrue))
      case "try" => Some(KeywordEntry(false, false, Try, CodeSymbol("Try")))
      case "typeof" => Some(KeywordEntry(false, false, Typeof, CodeSymbol("Typeof")))
      case "trait" => Some(KeywordEntry(false, false, ContextualKeyword, NamedSymbol("trait")))
      case _ => None
  }

  function KeywordsU(w: string): (r: Option<KeywordEntry>)
    ensures r.Some? ==> IsWordText(w) && (r.value.pp <==> w[0] == '#')
  {
    match w
      case "uint" => Some(KeywordEntry(false, false, TypeKeyword, CodeSymbol("UInt32")))
      case "ulong" => Some(KeywordEntry(false, false, TypeKeyword, CodeSymbol("UInt64")))
      case "unchecked" => Some(KeywordEntry(false, false, CheckedOrUnchecked, CodeSymbol("Unchecked")))
      case "unsafe" => Some(KeywordEntry(false, false, AttrKeyword, CodeSymbol("Unsafe")))
      case "ushort" => Some(KeywordEntry(false, false, TypeKeyword, CodeSymbol("UInt16")))
      case "using" => Some(KeywordEntry(false, false, Using, CodeSymbol("UsingStmt")))
      case _ => None
  }

  function KeywordsV(w: string): (r: Option<KeywordEntry>)
    ensures r.Some? ==> IsWordText(w) && (r.value.pp <==> w[0] == '#')
  {
    match w
      case "virtual" => Some(KeywordEntry(false, false, AttrKeyword, CodeSymbol("Virtual")))
      case "volatile" => Some(KeywordEntry(false, false, AttrKeyword, CodeSymbol("Volatile")))
      case "void" => Some(KeywordEntry(false, false, TypeKeyword, CodeSymbol("Void")))
      case "var" => Some(KeywordEntry(false, false, ContextualKeyword, NamedSymbol("var")))
      case _ => None
  }

  function KeywordsW(w: string): (r: Option<KeywordEntry>)
    ensures r.Some? ==> IsWordText(w) && (r.value.pp <==> w[0] == '#')
  {
    match w
      case "while" => Some(KeywordEntry(false, false, While, CodeSymbol("While")))
      case "where" => Some(KeywordEntry(false, false, ContextualKeyword, NamedSymbol("where")))
      case "when" => Some(KeywordEntry(false, false, ContextualKeyword, NamedSymbol("when")))
      case "with" => Some(KeywordEntry(false, false, ContextualKeyword, NamedSymbol("with")))
      case _ => None
  }

  function KeywordsHash(w: string): (r: Option<KeywordEntry>)
    ensures r.Some? ==> IsWordText(w) && (r.value.pp <==> w[0] == '#')
    ensures r.Some? ==> |w| >= 2
  {
    match w
      case "#if" => Some(KeywordEntry(true, false, PPif, CodeSymbol("PPIf")))
      case "#else" => Some(KeywordEntry(true, false, PPelse, CodeSymbol("PPElse")))
      case "#elif" => Some(KeywordEntry(true, false, PPelif, CodeSymbol("PPElIf")))
      case "#endif" => Some(KeywordEntry(true, false, PPendif, CodeSymbol("PPEndIf")))
      case "#define" => Some(KeywordEntry(true, false, PPdefine, CodeSymbol("PPDefine")))
      case "#undef" => Some(KeywordEntry(true, false, PPundef, CodeSymbol("PPUndef")))
      case "#pragma" => Some(KeywordEntry(true, false, PPpragma, CodeSymbol("PPPragma")))
      case "#line" => Some(KeywordEntry(true, false, PPline, CodeSymbol("PPLine")))
      case "#error" => Some(KeywordEntry(true, true, PPerror, NoValue))
      case "#warning" => Some(KeywordEntry(true, true, PPwarning, NoValue))
      case "#note" => Some(KeywordEntry(true, true, PPnote, NoValue))
      case "#region" => Some(KeywordEntry(true, true, PPregion, NoValue))
      case "#endregion" => Some(KeywordEntry(true, true, PPendregion, NoValue))
      case "#nullable" => Some(KeywordEntry(true, true, PPnullable, NoValue))
      case "#r" => Some(KeywordEntry(true, true, CSIreference, NoValue))
      case "#load" => Some(KeywordEntry(true, true, CSIload, NoValue))
      case "#cls" => Some(KeywordEntry(true, false, CSIclear, CodeSymbol("CsiCls")))
      case "#clear" => Some(KeywordEntry(true, false, CSIclear, CodeSymbol("CsiClear")))
      case "#help" => Some(KeywordEntry(true, false, CSIhelp, CodeSymbol("CsiHelp")))
      case "#reset" => Some(KeywordEntry(true, false, CSIreset, CodeSymbol("CsiReset")))
      case _ => None
  }

  function KeywordsM(w: string): (r: Option<KeywordEntry>)
    ensures r.Some? ==> IsWordText(w) && (r.value.pp <==> w[0] == '#')
  {
    match w
      case "module" => Some(KeywordEntry(false, false, ContextualKeyword, NamedSymbol("module")))
      case _ => None
  }

  function KeywordsJ(w: string): (r: Option<KeywordEntry>)
    ensures r.Some? ==> IsWordText(w) && (r.value.pp <==> w[0] == '#')
  {
    match w
      case "join" => Some(KeywordEntry(false, false, LinqKeyword, NamedSymbol("join")))
      case _ => None
  }

  // The end of the run of [#0-9A-Z_a-z] at p.
  function WordEnd(s: Input, p: nat): (e: nat)
    requires p <= |s|
    ensures p <= e <= |s|
    ensures forall i :: p <= i < e ==> InWordSet(s[i])
    ensures !InWordSet(LA(s, e, 0))
    decreases |s| - p
  {
    if InWordSet(LA(s, p, 0)) then WordEnd(s, p + 1) else p
  }

  // Characters of [#0-9A-Z_a-z] as a string.
  function WordText(w: seq<Char16>): (t: string)
    requires forall i :: 0 <= i < |w| ==> InWordSet(w[i])
    ensures |t| == |w| && forall i :: 0 <= i < |w| ==> t[i] as int == w[i]
  {
    if w == [] then []
    else
      assert InWordSet(w[0]);
      [w[0] as char] + WordText(w[1..])
  }

  // The keyword IdOrKeyword recognises at p, if any.
  function KeywordAt(s: Input, p: nat, allowPP: bool): Option<KeywordEntry>
    requires p <= |s|
  {
    var k := KeywordInfo(WordText(s[p..WordEnd(s, p)]));
    if k.Some? && (allowPP || !k.value.pp) then k else None
  }

  // ---- what IdOrKeyword recognises

  // A keyword is recognised only with its text at p and no word character
  // after it, and a directive only when AllowPP holds.
  lemma KeywordAtSound(s: Input, p: nat, allowPP: bool)
    requires p <= |s| && KeywordAt(s, p, allowPP).Some?
    ensures var t := WordText(s[p..WordEnd(s, p)]);
      KeywordInfo(t) == KeywordAt(s, p, allowPP)
      && MatchesAt(s, p, t) && !InWordSet(LA(s, p, |t|))
      && (KeywordAt(s, p, allowPP).value.pp ==> allowPP)
  {
    WordMatches(s, p);
  }

  // The word at p is at p, and a non-word character follows it.
  lemma WordMatches(s: Input, p: nat)
    requires p <= |s|
    ensures var t := WordText(s[p..WordEnd(s, p)]);
      |t| == WordEnd(s, p) - p && MatchesAt(s, p, t) && !InWordSet(LA(s, p, |t|))
  {
    var e := WordEnd(s, p);
    var t := WordText(s[p..e]);
    forall k | 0 <= k < |t|
      ensures LA(s, p, k) == t[k] as int
    {
      assert s[p..e][k] == s[p + k];
    }
  }

  // Every keyword of the table whose text is at p, with no word character
  // after it, is recognised, provided AllowPP holds for a directive.
  lemma KeywordAtComplete(s: Input, p: nat, allowPP: bool, t: string)
    requires p <= |s| && KeywordInfo(t).Some? && MatchesAt(s, p, t) && !InWordSet(LA(s, p, |t|))
    requires allowPP || !KeywordInfo(t).value.pp
    ensures WordEnd(s, p) == p + |t|
    ensures KeywordAt(s, p, allowPP) == KeywordInfo(t)
  {
    WordTextAt(s, p, t);
  }

  // The word t at p, with no word character after it, is the whole word
  // IdOrKeyword reads there.
  lemma WordTextAt(s: Input, p: nat, t: string)
    requires p <= |s| && IsWordText(t) && MatchesAt(s, p, t) && !InWordSet(LA(s, p, |t|))
    ensures WordEnd(s, p) == p + |t|
    ensures WordText(s[p..WordEnd(s, p)]) == t
  {
    WordEndAfter(s, p, t, 0);
    var w := WordText(s[p..p + |t|]);
    assert w == t by {
      forall i | 0 <= i < |t|
        ensures w[i] == t[i]
      {
        assert LA(s, p, i) == t[i] as int;
        assert s[p..p + |t|][i] == s[p + i];
      }
    }
  }

  lemma {:induction false} WordEndAfter(s: Input, p: nat, t: string, k: nat)
    requires p <= |s| && IsWordText(t) && MatchesAt(s, p, t) && !InWordSet(LA(s, p, |t|))
    requires k <= |t|
    ensures p + |t| <= |s| && WordEnd(s, p + k) == p + |t|
    decreases |t| - k
  {
    assert LA(s, p, |t| - 1) == t[|t| - 1] as int;
    if k < |t| {
      assert LA(s, p, k) == t[k] as int;
      WordEndAfter(s, p, t, k + 1);
    }
  }

  // Without AllowPP, exactly the directives are lost: a '#' at p gives no
  // keyword, and any other keyword is recognised as it is with AllowPP.
  lemma DirectivesNeedAllowPP(s: Input, p: nat)
    requires p <= |s|
    ensures KeywordAt(s, p, false) == (if LA(s, p, 0) == '#' as int then None else KeywordAt(s, p, true))
    ensures KeywordAt(s, p, true).Some? && LA(s, p, 0) == '#' as int ==> KeywordAt(s, p, true).value.pp
  {
    var e := WordEnd(s, p);
    var t := WordText(s[p..e]);
    if e > p {
      assert t[0] as int == s[p];
    }
  }
}
