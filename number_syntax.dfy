// The number syntax the LES and EC# lexers share: DecNumber's mantissa
// `([.] DecDigits | DecDigits ([.] DecDigits)?)`, the exponent, HexNumber's
// digits and fraction after "0x", and BinNumber after "0b". The functions say
// where each part stops; the methods run them on a cursor.
module NumberSyntax {
  import opened Chars
  import opened LexerCore

  predicate Between(c: int, lo: char, hi: char)
  {
    lo as int <= c <= hi as int
  }

  predicate IsOneOf(c: int, a: char, b: char)
  {
    c == a as int || c == b as int
  }

  // The base a number at q is read in: 16 after "0x" or "0X", 2 after
  // "0b" or "0B", 10 otherwise.
  function BaseAt(s: Input, q: nat): nat
  {
    if LA(s, q, 0) == '0' as int && IsOneOf(LA(s, q, 1), 'X', 'x') then 16
    else if LA(s, q, 0) == '0' as int && IsOneOf(LA(s, q, 1), 'B', 'b') then 2
    else 10
  }

  // Where a number rule stops, whether it saw a fraction or an exponent,
  // and how many Match errors it reported.
  datatype Mantissa = Mantissa(end: nat, isFloat: bool, errors: nat)

  // `([.] DecDigits | DecDigits ([.] DecDigits)?)`, used by DecNumber and,
  // after "0b", by BinNumber.
  function DecMantissa(s: Input, p: nat): (m: Mantissa)
    requires p <= |s|
    ensures p <= m.end <= |s|
  {
    if LA(s, p, 0) == '.' as int then
      Mantissa(DigitsEnd(s, p + 1, Dec), true, DigitsErrors(s, p + 1, Dec))
    else
      var q := DigitsEnd(s, p, Dec);
      if LA(s, q, 0) == '.' as int && IsDecDigit(LA(s, q, 1)) then
        Mantissa(DigitsEnd(s, q + 1, Dec), true, DigitsErrors(s, p, Dec))
      else
        Mantissa(q, false, DigitsErrors(s, p, Dec))
  }

  // `([Ee] ([+\-])? DecDigits)?` (or [Pp]) after m: taken only when a sign
  // or a digit follows the letter.
  function Exponent(s: Input, m: Mantissa, upper: char, lower: char): (r: Mantissa)
    requires m.end <= |s|
    ensures m.end <= r.end <= |s|
  {
    var q := m.end;
    if IsOneOf(LA(s, q, 0), upper, lower) && IsSignOrDigit(LA(s, q, 1)) then
      var d := if IsOneOf(LA(s, q, 1), '+', '-') then q + 2 else q + 1;
      Mantissa(DigitsEnd(s, d, Dec), true, m.errors + DigitsErrors(s, d, Dec))
    else m
  }

  // Exponent adds its own errors to the mantissa's.
  lemma ExponentErrors(s: Input, m: Mantissa, k: nat, upper: char, lower: char)
    requires m.end <= |s|
    ensures Exponent(s, Mantissa(m.end, m.isFloat, k + m.errors), upper, lower).errors
            == k + Exponent(s, m, upper, lower).errors
  {
  }

  function DecNumberScan(s: Input, p: nat): (m: Mantissa)
    requires p <= |s|
    ensures p <= m.end <= |s|
  {
    Exponent(s, DecMantissa(s, p), 'E', 'e')
  }

  // HexNumber at p, on "0x": optional hex digits, a '.' only when a hex digit
  // follows and HexNumber_Test0 accepts what comes after it, then [Pp].
  function HexMantissa(s: Input, p: nat): (m: Mantissa)
    requires p + 2 <= |s|
    ensures p + 2 <= m.end <= |s|
  {
    var q := HexIntegerEnd(s, p + 2);
    if HexFraction(s, q) then
      Mantissa(DigitsEnd(s, q + 1, Hex), true, 0)
    else
      Mantissa(q, false, 0)
  }

  // The optional hex digits before the '.'.
  function HexIntegerEnd(s: Input, q: nat): (e: nat)
    requires q <= |s|
    ensures q <= e <= |s|
  {
    if InClass(Hex, LA(s, q, 0)) then DigitsEnd(s, q, Hex) else q
  }

  // The '.' of a hex number: a hex digit after it, and HexNumber_Test0.
  predicate HexFraction(s: Input, q: nat)
    requires q <= |s|
  {
    LA(s, q, 0) == '.' as int && InClass(Hex, LA(s, q, 1)) && HexNumberTest0(s, q + 1)
  }

  function HexNumberScan(s: Input, p: nat): (m: Mantissa)
    requires p + 2 <= |s|
    ensures p + 2 <= m.end <= |s|
  {
    Exponent(s, HexMantissa(s, p), 'P', 'p')
  }

  // BinNumber at p, on "0b": DecDigits, not BinDigits, then [Pp].
  function BinNumberScan(s: Input, p: nat): (m: Mantissa)
    requires p + 2 <= |s|
    ensures p + 2 <= m.end <= |s|
  {
    Exponent(s, DecMantissa(s, p + 2), 'P', 'p')
  }

  // ---- what makes a number a float


  // A '.', or the exponent letter of the base: [Ee] in decimal, [Pp] in
  // hexadecimal and binary.
  predicate FloatMark(c: int, base: nat)
  {
    c == '.' as int
    || (base == 10 && (c == 'E' as int || c == 'e' as int))
    || (base != 10 && (c == 'P' as int || c == 'p' as int))
  }

  predicate HasMark(s: Input, q: nat, e: nat, base: nat)
    requires q <= e <= |s|
  {
    exists i :: q <= i < e && FloatMark(s[i], base)
  }

  lemma DigitsNoMark(s: Input, q: nat, d: DigitClass, base: nat)
    requires q <= |s| && (d == Dec || (d == Hex && base != 10))
    ensures !HasMark(s, q, DigitsEnd(s, q, d), base)
  {
    DigitsChars(s, q, d);
    forall i | q <= i < DigitsEnd(s, q, d)
      ensures !FloatMark(s[i], base)
    {
      assert InClass(d, s[i]) || s[i] == '_' as int;
    }
  }

  // DecMantissa is a float exactly when it took a '.'.
  lemma DecMantissaFloat(s: Input, q: nat, base: nat)
    requires q <= |s|
    ensures DecMantissa(s, q).isFloat <==> HasMark(s, q, DecMantissa(s, q).end, base)
  {
    var m := DecMantissa(s, q);
    if LA(s, q, 0) == '.' as int {
      assert FloatMark(s[q], base);
    } else {
      var e := DigitsEnd(s, q, Dec);
      DigitsNoMark(s, q, Dec, base);
      if LA(s, e, 0) == '.' as int && IsDecDigit(LA(s, e, 1)) {
        assert FloatMark(s[e], base);
      }
    }
  }

  lemma HexMantissaFloat(s: Input, q: nat)
    requires q + 2 <= |s| && BaseAt(s, q) == 16
    ensures HexMantissa(s, q).isFloat <==> HasMark(s, q, HexMantissa(s, q).end, 16)
  {
    var e := if InClass(Hex, LA(s, q + 2, 0)) then DigitsEnd(s, q + 2, Hex) else q + 2;
    if InClass(Hex, LA(s, q + 2, 0)) {
      DigitsNoMark(s, q + 2, Hex, 16);
    }
    assert !HasMark(s, q, e, 16) by {
      forall i | q <= i < e
        ensures !FloatMark(s[i], 16)
      {
        if i >= q + 2 {
          assert !HasMark(s, q + 2, e, 16);
        }
      }
    }
    if LA(s, e, 0) == '.' as int && InClass(Hex, LA(s, e, 1)) && HexNumberTest0(s, e + 1) {
      assert FloatMark(s[e], 16);
    }
  }

  lemma ExponentFloat(s: Input, q: nat, m: Mantissa, upper: char, lower: char, base: nat)
    requires q <= m.end <= |s|
    requires FloatMark(upper as int, base) && FloatMark(lower as int, base)
    requires m.isFloat <==> HasMark(s, q, m.end, base)
    ensures Exponent(s, m, upper, lower).isFloat <==> HasMark(s, q, Exponent(s, m, upper, lower).end, base)
  {
    var q1 := m.end;
    if IsOneOf(LA(s, q1, 0), upper, lower) && IsSignOrDigit(LA(s, q1, 1)) {
      assert FloatMark(s[q1], base);
    }
  }

  // ---- the rules on a cursor

  // `([.] DecDigits | DecDigits ([.] DecDigits)?)`; `fraction` tells
  // whether a '.' was taken.
  method DecMantissaRule(cur: Cursor) returns (fraction: bool)
    requires cur.Valid()
    modifies cur
    ensures cur.Valid()
    ensures cur.pos == DecMantissa(cur.input, old(cur.pos)).end
    ensures cur.errors == old(cur.errors) + DecMantissa(cur.input, old(cur.pos)).errors
    ensures fraction == DecMantissa(cur.input, old(cur.pos)).isFloat
  {
    if LA(cur.input, cur.pos, 0) == '.' as int {
      cur.Skip();
      cur.DecDigits();
      fraction := true;
    } else {
      cur.DecDigits();
      fraction := LA(cur.input, cur.pos, 0) == '.' as int && IsDecDigit(LA(cur.input, cur.pos, 1));
      if fraction {
        cur.Skip();
        cur.DecDigits();
      }
    }
  }

  // `([Ee] ([+\-])? DecDigits)?`, or with [Pp], after the mantissa m, with
  // e0 errors reported before m's.
  method ExponentRule(cur: Cursor, upper: char, lower: char, ghost m: Mantissa, ghost e0: nat) returns (taken: bool)
    requires cur.Valid() && m.end == cur.pos && cur.errors == e0 + m.errors
    modifies cur
    ensures cur.Valid()
    ensures cur.pos == Exponent(cur.input, m, upper, lower).end
    ensures cur.errors == e0 + Exponent(cur.input, m, upper, lower).errors
    ensures (m.isFloat || taken) == Exponent(cur.input, m, upper, lower).isFloat
  {
    taken := IsOneOf(LA(cur.input, cur.pos, 0), upper, lower) && IsSignOrDigit(LA(cur.input, cur.pos, 1));
    if taken {
      cur.Skip();
      if IsOneOf(LA(cur.input, cur.pos, 0), '+', '-') {
        cur.Skip();
      }
      cur.DecDigits();
    }
  }

  // DecNumber: the mantissa, then [Ee]; `isFloat` tells whether either saw
  // a fraction or an exponent.
  method DecNumberRule(cur: Cursor) returns (isFloat: bool)
    requires cur.Valid()
    modifies cur
    ensures cur.Valid()
    ensures cur.pos == DecNumberScan(cur.input, old(cur.pos)).end
    ensures cur.errors == old(cur.errors) + DecNumberScan(cur.input, old(cur.pos)).errors
    ensures isFloat == DecNumberScan(cur.input, old(cur.pos)).isFloat
  {
    ghost var m := DecMantissa(cur.input, cur.pos);
    var fraction := DecMantissaRule(cur);
    var taken := ExponentRule(cur, 'E', 'e', m, old(cur.errors));
    isFloat := fraction || taken;
  }

  // BinNumber, on "0b": the decimal mantissa, then [Pp].
  method BinNumberRule(cur: Cursor) returns (isFloat: bool)
    requires cur.Valid() && cur.pos + 2 <= |cur.input|
    modifies cur
    ensures cur.Valid()
    ensures cur.pos == BinNumberScan(cur.input, old(cur.pos)).end
    ensures cur.errors == old(cur.errors) + BinNumberScan(cur.input, old(cur.pos)).errors
    ensures isFloat == BinNumberScan(cur.input, old(cur.pos)).isFloat
  {
    cur.Skip();
    cur.Skip();
    ghost var m := DecMantissa(cur.input, cur.pos);
    var fraction := DecMantissaRule(cur);
    var taken := ExponentRule(cur, 'P', 'p', m, old(cur.errors));
    isFloat := fraction || taken;
  }

  // HexNumber of LES, on "0x": the hex mantissa, then [Pp].
  method HexNumberRule(cur: Cursor) returns (isFloat: bool)
    requires cur.Valid() && cur.pos + 2 <= |cur.input|
    modifies cur
    ensures cur.Valid()
    ensures cur.pos == HexNumberScan(cur.input, old(cur.pos)).end
    ensures cur.errors == old(cur.errors) + HexNumberScan(cur.input, old(cur.pos)).errors
    ensures isFloat == HexNumberScan(cur.input, old(cur.pos)).isFloat
  {
    ghost var p0 := cur.pos;
    cur.Skip();
    cur.Skip();
    var fraction := HexMantissaRule(cur, p0);
    var taken := ExponentRule(cur, 'P', 'p', HexMantissa(cur.input, p0), old(cur.errors));
    isFloat := fraction || taken;
  }

  // The digits and fraction of HexNumber, after "0x"; `fraction` tells
  // whether the '.' branch was taken.
  method HexMantissaRule(cur: Cursor, ghost p0: nat) returns (fraction: bool)
    requires cur.Valid() && p0 + 2 <= |cur.input| && cur.pos == p0 + 2
    modifies cur
    ensures cur.Valid()
    ensures cur.pos == HexMantissa(cur.input, p0).end && cur.errors == old(cur.errors)
    ensures fraction == HexMantissa(cur.input, p0).isFloat
  {
    if InClass(Hex, LA(cur.input, cur.pos, 0)) {
      cur.HexDigits();
    }
    assert cur.pos == HexIntegerEnd(cur.input, p0 + 2);
    fraction := HexFraction(cur.input, cur.pos);
    if fraction {
      cur.Skip();
      cur.HexDigits();
    }
  }
}
