/** Number literals as a grammar of strings: what the scanner takes for one, and which of those are literals of the language. */
module Numerals {
  import opened Lexemes

  const DECIMAL := "0123456789"
  const BINARY := "01"
  const OCTAL := "01234567"
  const HEXADECIMAL := "0123456789abcdefABCDEF"

  // ---- what is taken for a number -----------------------------------------

  /** Digits and underscores; a decimal digit outside the radix does not end them. */
  predicate Run(s: string, a: nat, b: nat, digits: string) {
    a <= b <= |s| && forall k :: a <= k < b ==> s[k] in digits || s[k] == '_' || s[k] in DECIMAL
  }

  /** Nothing, or one of the letters. */
  predicate Maybe(s: string, a: nat, b: nat, letters: string) { a == b || (b == a + 1 <= |s| && s[a] in letters) }

  predicate Dots(s: string, a: nat) { a + 3 <= |s| && s[a] == '.' && s[a + 1] == '.' && s[a + 2] == '.' }

  /** A letter, perhaps a sign, and decimal digits. */
  predicate Exponent(s: string, a: nat, b: nat, letters: string) {
    && a < b <= |s| && s[a] in letters
    && (Run(s, a + 1, b, DECIMAL) || (a + 2 <= b && s[a + 1] in "+-" && Run(s, a + 2, b, DECIMAL)))
  }

  predicate Prefixed(s: string, i: nat, letters: string) { i + 2 <= |s| && s[i] == '0' && s[i + 1] in letters }

  /** The point is not the first of an ellipsis. */
  predicate Fraction(s: string, a: nat, b: nat) { a < b <= |s| && s[a] == '.' && !Dots(s, a) && Run(s, a + 1, b, DECIMAL) }

  ghost predicate HexText(s: string, i: nat, n: nat, float: bool) { exists d: nat, f: nat :: HexParts(s, i, n, float, d, f) }

  /** The digits before the point end at d, and what is after it at f. */
  ghost predicate HexParts(s: string, i: nat, n: nat, float: bool, d: nat, f: nat) {
    && i + 2 <= d <= f && Run(s, i + 2, d, HEXADECIMAL) && (f == d || (d < f <= |s| && s[d] == '.' && Run(s, d + 1, f, HEXADECIMAL)))
    && if float then (f == n && d < f) || HexPower(s, f, n) else d == f && Maybe(s, f, n, "lL")
  }

  ghost predicate HexPower(s: string, f: nat, n: nat) { exists e: nat :: Exponent(s, f, e, "pP") && Maybe(s, e, n, "fFdD") }

  ghost predicate BinText(s: string, i: nat, n: nat) { exists d: nat :: i + 2 <= d && Run(s, i + 2, d, BINARY) && Maybe(s, d, n, "lL") }

  ghost predicate DecText(s: string, i: nat, n: nat, float: bool) { exists d: nat, f: nat, e: nat :: DecParts(s, i, n, float, d, f, e) }

  /** The digits before the point end at d, those after it at f, the exponent at e. */
  ghost predicate DecParts(s: string, i: nat, n: nat, float: bool, d: nat, f: nat, e: nat) {
    && i <= d <= f <= e && Run(s, i, d, DECIMAL) && (f == d || Fraction(s, d, f)) && (e == f || Exponent(s, f, e, "eE"))
    && Maybe(s, e, n, "fFdDlL") && (float <==> d < e || (e < n && s[e] in "fFdD"))
  }

  ghost predicate NumberText(s: string, i: nat, n: nat, float: bool) {
    && NumberStart(s, i) && i < n <= |s|
    && if Prefixed(s, i, "xX") then HexText(s, i, n, float)
       else if Prefixed(s, i, "bB") then !float && BinText(s, i, n)
       else DecText(s, i, n, float)
  }

  // ---- and it is the longest ----------------------------------------------

  lemma Sets(c: char)
    ensures c in DECIMAL <==> Digit(c)
    ensures c in BINARY <==> BinDigit(c)
    ensures c in OCTAL <==> OctDigit(c)
    ensures c in HEXADECIMAL <==> HexDigit(c)
  {
    DecimalSet(c);
    HexSet(c);
  }

  lemma DecimalSet(c: char)
    ensures c in DECIMAL <==> Digit(c)
    ensures c in BINARY <==> BinDigit(c)
    ensures c in OCTAL <==> OctDigit(c)
  {
    if Digit(c) {
      var k := c as int - '0' as int;
      assert DECIMAL[k] == c;
      if BinDigit(c) { assert BINARY[k] == c; }
      if OctDigit(c) { assert OCTAL[k] == c; }
    }
  }

  lemma HexSet(c: char)
    ensures c in HEXADECIMAL <==> HexDigit(c)
  {
    if Digit(c) {
      assert HEXADECIMAL[c as int - '0' as int] == c;
    } else if 'a' <= c <= 'f' {
      assert HEXADECIMAL[c as int - 'a' as int + 10] == c;
    } else if 'A' <= c <= 'F' {
      assert HEXADECIMAL[c as int - 'A' as int + 16] == c;
    }
  }

  predicate InRun(c: char, digits: string) { c in digits || c == '_' || c in DECIMAL }

  ghost predicate Longest(s: string, a: nat, d: nat, digits: string) {
    Run(s, a, d, digits) && (d < |s| ==> !InRun(s[d], digits)) && forall b: nat :: Run(s, a, b, digits) ==> b <= d
  }

  /** The scanner's run is a run, and no run goes further. */
  lemma {:induction false} RunIs(s: string, a: nat, ok: char -> bool, digits: string)
    requires a <= |s| && forall c :: c in digits <==> ok(c)
    ensures Longest(s, a, DigitRun(s, a, ok), digits)
    decreases |s| - a
  {
    if a < |s| {
      Sets(s[a]);
      if ok(s[a]) || s[a] == '_' || Digit(s[a]) { RunIs(s, a + 1, ok, digits); }
      forall b: nat | Run(s, a, b, digits) ensures b <= DigitRun(s, a, ok) {
        if b > a { assert Run(s, a + 1, b, digits); }
      }
    }
  }

  lemma ExponentIs(s: string, f: nat, c: char, d: char, letters: string)
    requires f <= |s| && letters == [c, d]
    ensures var e := if One(s, f, c, d) then DigitRun(s, SignEnd(s, f + 1), Digit) else f;
            && (e > f ==> Exponent(s, f, e, letters)) && (One(s, f, c, d) ==> e > f)
            && (forall b: nat :: Exponent(s, f, b, letters) ==> One(s, f, c, d) && b <= e)
            && (e > f ==> e < |s| ==> !(s[e] in DECIMAL || s[e] == '_'))
  {
    hide DigitRun;
    forall x: char ensures x in DECIMAL <==> Digit(x) { Sets(x); }
    if One(s, f, c, d) {
      var g := SignEnd(s, f + 1);
      RunIs(s, g, Digit, DECIMAL);
      forall b: nat | Exponent(s, f, b, letters)
        ensures b <= DigitRun(s, g, Digit)
      {
        if g == f + 2 { assert !(s[f + 1] in DECIMAL || s[f + 1] == '_'); }
        if g == f + 2 && Run(s, f + 1, b, DECIMAL) { assert b == f + 1; }
      }
    }
  }

  /** Where the scanner ends the two runs and the exponent. */
  ghost predicate HexEnds(s: string, i: nat, d: nat, f: nat, e: nat)
    requires i + 2 <= |s|
  {
    && d == DigitRun(s, i + 2, HexDigit) && f == (if At(s, d, '.') then DigitRun(s, d + 1, HexDigit) else d)
    && e == (if One(s, f, 'p', 'P') then DigitRun(s, SignEnd(s, f + 1), Digit) else f)
  }

  lemma HexFacts(s: string, i: nat, d: nat, f: nat, e: nat)
    requires i + 2 <= |s| && HexEnds(s, i, d, f, e)
    ensures i + 2 <= d <= f <= e <= |s| && Longest(s, i + 2, d, HEXADECIMAL)
    ensures At(s, d, '.') ==> d < f && Longest(s, d + 1, f, HEXADECIMAL)
    ensures e > f ==> Exponent(s, f, e, "pP") && (e < |s| ==> !InRun(s[e], DECIMAL))
    ensures One(s, f, 'p', 'P') ==> e > f
    ensures forall b: nat :: Exponent(s, f, b, "pP") ==> One(s, f, 'p', 'P') && b <= e
  {
    hide DigitRun, Exponent;
    forall c: char ensures c in HEXADECIMAL <==> HexDigit(c) { Sets(c); }
    RunIs(s, i + 2, HexDigit, HEXADECIMAL);
    if At(s, d, '.') { RunIs(s, d + 1, HexDigit, HEXADECIMAL); }
    ExponentIs(s, f, 'p', 'P', "pP");
  }

  lemma HexNumberIs(s: string, i: nat, d: nat, f: nat, e: nat)
    requires i + 2 <= |s| && HexEnds(s, i, d, f, e)
    ensures f <= |s| && e <= |s|
    ensures HexNumber(s, i) == if One(s, f, 'p', 'P') then (true, if e < |s| && FloatSuffix(s[e]) then e + 1 else e)
                               else if f > d then (true, f) else (false, LongEnd(s, f))
  {
    hide DigitRun;
  }

  lemma HexReads(s: string, i: nat)
    requires NumberStart(s, i) && Prefixed(s, i, "xX")
    ensures var r := HexNumber(s, i); HexText(s, i, r.1, r.0)
  {
    hide DigitRun, Exponent, Run, HexNumber, Longest;
    var d := DigitRun(s, i + 2, HexDigit);
    var f := if At(s, d, '.') then DigitRun(s, d + 1, HexDigit) else d;
    var e := if One(s, f, 'p', 'P') then DigitRun(s, SignEnd(s, f + 1), Digit) else f;
    HexFacts(s, i, d, f, e);
    HexNumberIs(s, i, d, f, e);
    LongestRuns(s, i + 2, d, HEXADECIMAL);
    if At(s, d, '.') { LongestRuns(s, d + 1, f, HEXADECIMAL); }
    var r := HexNumber(s, i);
    if One(s, f, 'p', 'P') { assert Exponent(s, f, e, "pP") && Maybe(s, e, r.1, "fFdD"); }
    assert HexParts(s, i, r.1, r.0, d, f);
  }

  lemma LongestRuns(s: string, a: nat, b: nat, digits: string)
    requires Longest(s, a, b, digits)
    ensures Run(s, a, b, digits) && a <= b <= |s|
  {
  }

  lemma Inside(s: string, a: nat, b: nat, k: nat, digits: string)
    requires Run(s, a, b, digits) && a <= k < b
    ensures InRun(s[k], digits)
  {
  }

  lemma NotInRun(c: char, digits: string)
    requires InRun(c, digits) && (digits == HEXADECIMAL || digits == DECIMAL || digits == BINARY)
    ensures c != '.' && c !in "pP" && c !in "lL" && (digits != HEXADECIMAL ==> c !in "eE" && c !in "fFdD" && c !in "fFdDlL")
  {
    Sets(c);
  }

  lemma HexMax(s: string, i: nat, n: nat, float: bool)
    requires NumberStart(s, i) && Prefixed(s, i, "xX") && HexText(s, i, n, float)
    ensures n <= HexNumber(s, i).1
  {
    hide DigitRun, Exponent, Run, HexNumber;
    var D := DigitRun(s, i + 2, HexDigit);
    var F := if At(s, D, '.') then DigitRun(s, D + 1, HexDigit) else D;
    var E := if One(s, F, 'p', 'P') then DigitRun(s, SignEnd(s, F + 1), Digit) else F;
    HexFacts(s, i, D, F, E);
    HexNumberIs(s, i, D, F, E);
    var d: nat, f: nat :| HexParts(s, i, n, float, d, f);
    if d < D {
      Inside(s, i + 2, D, d, HEXADECIMAL);
      NotInRun(s[d], HEXADECIMAL);
      HexStuck(s, f, n);
    } else if d == f && d < F {
      HexStuck(s, f, n);
    } else if f < F {
      Inside(s, D + 1, F, f, HEXADECIMAL);
      NotInRun(s[f], HEXADECIMAL);
      HexStuck(s, f, n);
    } else if HexPower(s, f, n) {
      var e: nat :| Exponent(s, f, e, "pP") && Maybe(s, e, n, "fFdD");
      if e < E { ExponentCut(s, f, e, E, n, "pP"); }
    }
  }

  /** An exponent cut short is followed by a digit or an underscore, or by a sign. */
  lemma ExponentCut(s: string, f: nat, e: nat, E: nat, n: nat, letters: string)
    requires Exponent(s, f, e, letters) && Exponent(s, f, E, letters) && e < E && (Maybe(s, e, n, "fFdD") || Maybe(s, e, n, "fFdDlL"))
    ensures n == e
  {
    if s[e] !in "+-" {
      assert InRun(s[e], DECIMAL);
      NotInRun(s[e], DECIMAL);
    }
  }

  lemma HexStuck(s: string, f: nat, n: nat)
    ensures HexPower(s, f, n) ==> f < |s| && s[f] in "pP"
  {
  }

  lemma HexKind(s: string, i: nat, n: nat)
    ensures !(HexText(s, i, n, true) && HexText(s, i, n, false))
  {
    hide Run, Exponent;
    if HexText(s, i, n, true) && HexText(s, i, n, false) {
      var d: nat, f: nat :| HexParts(s, i, n, true, d, f);
      var d': nat, f': nat :| HexParts(s, i, n, false, d', f');
      HexStuck(s, f, n);
      HexOver(s, f, n);
      if d < d' {
        Inside(s, i + 2, d', d, HEXADECIMAL);
        NotInRun(s[d], HEXADECIMAL);
      }
    }
  }

  lemma HexOver(s: string, f: nat, n: nat)
    ensures HexPower(s, f, n) ==> f < n
  {
  }

  // ---- decimal and binary -------------------------------------------------

  lemma BinReads(s: string, i: nat)
    requires NumberStart(s, i) && Prefixed(s, i, "bB")
    ensures Number(s, i).0 == false && BinText(s, i, Number(s, i).1)
    ensures forall n: nat :: BinText(s, i, n) ==> n <= Number(s, i).1
  {
    hide DigitRun;
    forall c: char ensures c in BINARY <==> BinDigit(c) { Sets(c); }
    var D := DigitRun(s, i + 2, BinDigit);
    RunIs(s, i + 2, BinDigit, BINARY);
    assert Number(s, i) == (false, LongEnd(s, D));
    assert Run(s, i + 2, D, BINARY) && Maybe(s, D, Number(s, i).1, "lL");
    forall n: nat | BinText(s, i, n)
      ensures n <= Number(s, i).1
    {
      var d: nat :| i + 2 <= d && Run(s, i + 2, d, BINARY) && Maybe(s, d, n, "lL");
      if d < D {
        Inside(s, i + 2, D, d, BINARY);
        NotInRun(s[d], BINARY);
      }
    }
  }

  /** Where the scanner ends the digits, the fraction and the exponent. */
  ghost predicate DecEnds(s: string, i: nat, d: nat, f: nat, e: nat)
    requires NumberStart(s, i)
  {
    d == (if s[i] == '.' then i else DigitRun(s, i, Digit)) && d <= |s| && f == FractionEnd(s, d) && e == ExponentEnd(s, f)
  }

  lemma DecFacts(s: string, i: nat, d: nat, f: nat, e: nat)
    requires NumberStart(s, i) && DecEnds(s, i, d, f, e)
    ensures i <= d <= f <= e <= |s| && i < e && Longest(s, i, d, DECIMAL) && (f == d || Fraction(s, d, f))
    ensures forall b: nat :: Fraction(s, d, b) ==> f > d && b <= f
    ensures f > d && f < |s| ==> !InRun(s[f], DECIMAL)
    ensures e > f ==> Exponent(s, f, e, "eE")
    ensures forall b: nat :: Exponent(s, f, b, "eE") ==> e > f && b <= e
    ensures s[i] == '.' ==> f > d
  {
    hide DigitRun, Exponent;
    forall c: char ensures c in DECIMAL <==> Digit(c) { Sets(c); }
    RunIs(s, i, Digit, DECIMAL);
    if f > d { RunIs(s, d + 1, Digit, DECIMAL); }
    ExponentIs(s, f, 'e', 'E', "eE");
    NumberMoves(s, i);
    if s[i] == '.' { NoRun(s, i); }
  }

  lemma NoRun(s: string, i: nat)
    requires i < |s| && s[i] == '.'
    ensures Longest(s, i, i, DECIMAL)
  {
    assert !InRun('.', DECIMAL);
  }

  lemma DecReads(s: string, i: nat)
    requires NumberStart(s, i) && !Prefixed(s, i, "xX") && !Prefixed(s, i, "bB")
    ensures var r := Number(s, i); DecText(s, i, r.1, r.0)
  {
    hide DigitRun, Exponent, Run, FractionEnd, ExponentEnd;
    var d := if s[i] == '.' then i else DigitRun(s, i, Digit);
    var f := FractionEnd(s, d);
    var e := ExponentEnd(s, f);
    DecFacts(s, i, d, f, e);
    var r := Number(s, i);
    assert DecParts(s, i, r.1, r.0, d, f, e);
  }

  lemma DecMax(s: string, i: nat, n: nat, float: bool)
    requires NumberStart(s, i) && !Prefixed(s, i, "xX") && !Prefixed(s, i, "bB") && DecText(s, i, n, float)
    ensures n <= Number(s, i).1
  {
    hide DigitRun, Exponent, Run, FractionEnd, ExponentEnd;
    var D := if s[i] == '.' then i else DigitRun(s, i, Digit);
    var F := FractionEnd(s, D);
    var E := ExponentEnd(s, F);
    DecFacts(s, i, D, F, E);
    var d: nat, f: nat, e: nat :| DecParts(s, i, n, float, d, f, e);
    ExponentStarts(s, f, e);
    if d < D {
      Inside(s, i, D, d, DECIMAL);
      NotInRun(s[d], DECIMAL);
    } else if d == f && d < F {
      PointOnly(s, d);
    } else if f < F {
      FractionRun(s, D, F);
      Inside(s, D + 1, F, f, DECIMAL);
      NotInRun(s[f], DECIMAL);
    } else if e == f && e < E {
      ExponentStarts(s, f, E);
    } else if e < E {
      ExponentCut(s, f, e, E, n, "eE");
    }
  }

  lemma FractionRun(s: string, a: nat, b: nat)
    requires Fraction(s, a, b)
    ensures Run(s, a + 1, b, DECIMAL)
  {
  }

  lemma ExponentStarts(s: string, f: nat, e: nat)
    ensures Exponent(s, f, e, "eE") ==> f < e && f < |s| && s[f] in "eE" && s[f] != '.' && s[f] !in "fFdDlL"
  {
  }

  lemma PointOnly(s: string, d: nat)
    ensures d < |s| && s[d] == '.' ==> s[d] !in "eE" && s[d] !in "fFdDlL" && s[d] !in "fFdD"
  {
  }

  lemma DecKind(s: string, i: nat, n: nat)
    ensures !(DecText(s, i, n, true) && DecText(s, i, n, false))
  {
    hide Run, Exponent;
    if DecText(s, i, n, true) && DecText(s, i, n, false) {
      var d: nat, f: nat, e: nat :| DecParts(s, i, n, true, d, f, e);
      var d': nat, f': nat, e': nat :| DecParts(s, i, n, false, d', f', e');
      ExponentStarts(s, f, e);
      PointOnly(s, d);
      assert d' == f' == e';
      if d < d' {
        Inside(s, i, d', d, DECIMAL);
        NotInRun(s[d], DECIMAL);
      }
    }
  }

  /** What is scanned as a number is the longest text there that is one, and whether it is floating-point is told from that text. */
  lemma NumberExactly(s: string, i: nat, n: nat, float: bool)
    requires NumberStart(s, i)
    ensures Number(s, i) == (float, n) <==> NumberText(s, i, n, float) && forall m: nat, g :: NumberText(s, i, m, g) ==> m <= n
  {
    hide HexText, BinText, DecText, DigitRun, FractionEnd, ExponentEnd, LongEnd, HexNumber;
    var r := Number(s, i);
    if Prefixed(s, i, "xX") {
      HexReads(s, i);
      assert Number(s, i) == HexNumber(s, i) by { HexFirst(s, i); }
      forall m: nat, g | NumberText(s, i, m, g) ensures m <= r.1 { HexMax(s, i, m, g); }
      HexKind(s, i, n);
      assert NumberText(s, i, r.1, r.0);
    } else if Prefixed(s, i, "bB") {
      BinReads(s, i);
      assert NumberText(s, i, r.1, r.0);
    } else {
      DecReads(s, i);
      forall m: nat, g | NumberText(s, i, m, g) ensures m <= r.1 { DecMax(s, i, m, g); }
      DecKind(s, i, n);
      assert NumberText(s, i, r.1, r.0);
    }
  }

  lemma HexFirst(s: string, i: nat)
    requires NumberStart(s, i) && Prefixed(s, i, "xX")
    ensures Number(s, i) == HexNumber(s, i)
  {
  }

  // ---- literals of the language -------------------------------------------

  /** Sections 3.10.1 and 3.10.2 of the Java Language Specification: digits with underscores between them. */
  predicate Digits(s: string, a: nat, b: nat, digits: string) {
    a < b <= |s| && s[a] in digits && s[b - 1] in digits && forall k :: a <= k < b ==> s[k] in digits || s[k] == '_'
  }

  predicate Octal(s: string, i: nat, d: nat, u: nat) {
    i < u < d <= |s| && s[i] == '0' && (forall k :: i < k < u ==> s[k] == '_') && Digits(s, u, d, OCTAL)
  }

  ghost predicate Numeral(s: string, i: nat, d: nat) {
    && i < d <= |s|
    && (|| (d == i + 1 && s[i] == '0')
        || (s[i] != '0' && Digits(s, i, d, DECIMAL))
        || (Prefixed(s, i, "xX") && Digits(s, i + 2, d, HEXADECIMAL))
        || (Prefixed(s, i, "bB") && Digits(s, i + 2, d, BINARY))
        || exists u: nat :: Octal(s, i, d, u))
  }

  ghost predicate IntLiteral(s: string, i: nat, n: nat) { exists d: nat :: Numeral(s, i, d) && Maybe(s, d, n, "lL") }

  predicate Powered(s: string, a: nat, b: nat, letters: string) {
    && a < b <= |s| && s[a] in letters
    && (Digits(s, a + 1, b, DECIMAL) || (a + 2 <= b && s[a + 1] in "+-" && Digits(s, a + 2, b, DECIMAL)))
  }

  /** Digits that may be missing, and after a point again. */
  predicate Mantissa(s: string, i: nat, d: nat, f: nat, digits: string) {
    && i <= d <= f <= |s| && (d == i || Digits(s, i, d, digits))
    && (f == d || (s[d] == '.' && (f == d + 1 || Digits(s, d + 1, f, digits))))
    && (i < d || d + 1 < f)
  }

  ghost predicate FloatLiteral(s: string, i: nat, n: nat) {
    exists d: nat, f: nat, e: nat :: DecLiteral(s, i, n, d, f, e) || HexLiteral(s, i, n, d, f, e)
  }

  /** A point, an exponent or a suffix makes it floating-point. */
  predicate DecLiteral(s: string, i: nat, n: nat, d: nat, f: nat, e: nat) {
    && Mantissa(s, i, d, f, DECIMAL) && (e == f || Powered(s, f, e, "eE")) && Maybe(s, e, n, "fFdD") && (d < f || f < e || e < n)
  }

  /** A hexadecimal one has an exponent. */
  predicate HexLiteral(s: string, i: nat, n: nat, d: nat, f: nat, e: nat) {
    Prefixed(s, i, "xX") && Mantissa(s, i + 2, d, f, HEXADECIMAL) && Powered(s, f, e, "pP") && Maybe(s, e, n, "fFdD")
  }

  /** An underscore before the point of a decimal number, or before its exponent or suffix; or a binary number without digits. */
  predicate Slips(s: string, i: nat)
    requires NumberStart(s, i)
  {
    if Prefixed(s, i, "xX") then false
    else if Prefixed(s, i, "bB") then DigitRun(s, i + 2, BinDigit) == i + 2
    else Number(s, i).0 && s[i] != '.' && s[DigitRun(s, i, Digit) - 1] == '_'
  }

  lemma DigitsRun(s: string, a: nat, b: nat, ok: char -> bool, digits: string)
    requires (forall c :: c in digits <==> ok(c)) && !ok('_') && b <= |s|
    ensures Digits(s, a, b, digits) <==> a < b && RunOk(s, a, b, ok)
  {
    if a < b && RunOk(s, a, b, ok) { assert s[a] == '_' || ok(s[a]); assert s[b - 1] == '_' || ok(s[b - 1]); }
  }

  lemma DigitsAreRun(s: string, a: nat, b: nat, digits: string)
    requires Digits(s, a, b, digits)
    ensures Run(s, a, b, digits)
  {
  }

  // ---- hexadecimal --------------------------------------------------------

  lemma PoweredIs(s: string, f: nat, c: char, d: char, letters: string, b: nat)
    requires f < |s| && letters == [c, d] && One(s, f, c, d)
    ensures Powered(s, f, DigitRun(s, SignEnd(s, f + 1), Digit), letters) <==> QuietExponent(s, f)
    ensures Powered(s, f, b, letters) ==> Exponent(s, f, b, letters)
  {
    hide DigitRun;
    forall x: char ensures x in DECIMAL <==> Digit(x) { Sets(x); }
    var g := SignEnd(s, f + 1);
    var e := DigitRun(s, g, Digit);
    RunIs(s, g, Digit, DECIMAL);
    if Digits(s, f + 1, b, DECIMAL) { DigitsAreRun(s, f + 1, b, DECIMAL); }
    if Digits(s, f + 2, b, DECIMAL) { DigitsAreRun(s, f + 2, b, DECIMAL); }
    DigitsRun(s, g, e, Digit, DECIMAL);
    if g == f + 2 {
      assert s[f + 1] !in DECIMAL;
      assert Powered(s, f, e, letters) <==> Digits(s, g, e, DECIMAL);
    } else {
      assert f + 1 < |s| ==> s[f + 1] !in "+-";
      assert Powered(s, f, e, letters) <==> Digits(s, g, e, DECIMAL);
    }
  }

  lemma MantissaParts(s: string, i: nat, d: nat, f: nat, digits: string)
    requires Mantissa(s, i, d, f, digits)
    ensures Run(s, i, d, digits) && (d < f ==> s[d] == '.' && Run(s, d + 1, f, digits))
  {
  }

  lemma MantissaQuiet(s: string, i: nat, d: nat, f: nat, ok: char -> bool, digits: string)
    requires (forall c :: c in digits <==> ok(c)) && !ok('_') && i <= d <= f <= |s| && (d < f ==> s[d] == '.')
    ensures Mantissa(s, i, d, f, digits) <==> RunOk(s, i, d, ok) && RunOk(s, d + 1, f, ok) && (i < d || d + 1 < f)
  {
    hide RunOk, Digits;
    DigitsRun(s, i, d, ok, digits);
    DigitsRun(s, d + 1, f, ok, digits);
    if d == i { Empty(s, i, d, ok); }
    if f <= d + 1 { Empty(s, d + 1, f, ok); }
  }

  lemma Empty(s: string, a: nat, b: nat, ok: char -> bool)
    requires b <= |s| && b <= a
    ensures RunOk(s, a, b, ok)
  {
  }

  /** A hexadecimal literal that is all the scanner took has the scanner's parts. */
  lemma HexUnique(s: string, i: nat, d: nat, f: nat, e: nat, D: nat, F: nat, E: nat)
    requires NumberStart(s, i) && Prefixed(s, i, "xX") && HexEnds(s, i, D, F, E) && HexLiteral(s, i, HexNumber(s, i).1, d, f, e)
    ensures d == D && f == F && e == E
  {
    hide DigitRun, Exponent, Run, HexNumber, Powered, Mantissa;
    var n := HexNumber(s, i).1;
    HexFacts(s, i, D, F, E);
    HexNumberIs(s, i, D, F, E);
    assert i + 2 <= d <= f <= |s| && Run(s, i + 2, d, HEXADECIMAL) && (d < f ==> s[d] == '.' && Run(s, d + 1, f, HEXADECIMAL)) by {
      MantissaBounds(s, i + 2, d, f, HEXADECIMAL);
      MantissaParts(s, i + 2, d, f, HEXADECIMAL);
    }
    PowerStarts(s, f, e, "pP");
    PoweredIs(s, f, 'p', 'P', "pP", e);
    if d < D {
      Inside(s, i + 2, D, d, HEXADECIMAL);
      NotInRun(s[d], HEXADECIMAL);
    } else if f < F {
      if D < f { Inside(s, D + 1, F, f, HEXADECIMAL); NotInRun(s[f], HEXADECIMAL); }
    } else if e < E {
      ExponentCut(s, f, e, E, n, "pP");
    }
  }

  lemma MantissaBounds(s: string, i: nat, d: nat, f: nat, digits: string)
    requires Mantissa(s, i, d, f, digits)
    ensures i <= d <= f <= |s|
  {
  }

  lemma PowerStarts(s: string, f: nat, e: nat, letters: string)
    requires Powered(s, f, e, letters)
    ensures f < e <= |s| && s[f] in letters
    ensures letters == "pP" ==> One(s, f, 'p', 'P')
    ensures letters == "eE" ==> One(s, f, 'e', 'E')
  {
  }

  lemma PrefixLetter(c: char)
    requires c in "xXbB"
    ensures c !in DECIMAL && c !in OCTAL && c != '_' && c != '.' && c !in "eE" && c !in "fFdD" && c !in "lL"
  {
    Sets(c);
  }

  /** The x is no part of a decimal literal. */
  lemma NotDecimal(s: string, i: nat, n: nat, d: nat, f: nat, e: nat)
    requires i + 2 <= |s| && s[i] == '0' && s[i + 1] in "xXbB"
    ensures !DecLiteral(s, i, n, d, f, e)
  {
    PrefixLetter(s[i + 1]);
    if DecLiteral(s, i, n, d, f, e) && e > f { PowerStarts(s, f, e, "eE"); }
  }

  lemma NoOctal(s: string, i: nat, d: nat, u: nat)
    requires i + 2 <= |s| && s[i] == '0' && s[i + 1] in "xXbB"
    ensures !Octal(s, i, d, u)
  {
    PrefixLetter(s[i + 1]);
  }

  predicate Radix(s: string, i: nat, digits: string) {
    (Prefixed(s, i, "xX") && digits == HEXADECIMAL) || (Prefixed(s, i, "bB") && digits == BINARY)
  }

  lemma PrefixedInt(s: string, i: nat, n: nat, D: nat, digits: string)
    requires NumberStart(s, i) && Radix(s, i, digits) && Longest(s, i + 2, D, digits) && n == LongEnd(s, D)
    ensures IntLiteral(s, i, n) <==> Digits(s, i + 2, D, digits)
  {
    hide Digits, Octal, Run;
    LongestRuns(s, i + 2, D, digits);
    PrefixLetter(s[i + 1]);
    if Digits(s, i + 2, D, digits) {
      DigitsFit(s, i + 2, D, digits);
      assert Numeral(s, i, D) && Maybe(s, D, n, "lL");
    }
    if d: nat :| Numeral(s, i, d) && Maybe(s, d, n, "lL") {
      if u: nat :| Octal(s, i, d, u) { NoOctal(s, i, d, u); }
      if Digits(s, i + 2, d, digits) {
        DigitsFit(s, i + 2, d, digits);
        DigitsAreRun(s, i + 2, d, digits);
        if d < D { Inside(s, i + 2, D, d, digits); NotInRun(s[d], digits); }
      }
    }
  }

  lemma DigitsFit(s: string, a: nat, b: nat, digits: string)
    requires Digits(s, a, b, digits)
    ensures a < b <= |s|
  {
  }

  lemma HexExactly(s: string, i: nat)
    requires NumberStart(s, i) && Prefixed(s, i, "xX")
    ensures var r := HexNumber(s, i); QuietHex(s, i) <==> if r.0 then FloatLiteral(s, i, r.1) else IntLiteral(s, i, r.1)
  {
    hide DigitRun, Exponent, Run, HexNumber, Powered, Mantissa, RunOk, Digits, QuietExponent, Octal;
    forall c: char ensures c in HEXADECIMAL <==> HexDigit(c) { Sets(c); }
    var r := HexNumber(s, i);
    var D := DigitRun(s, i + 2, HexDigit);
    var F := if At(s, D, '.') then DigitRun(s, D + 1, HexDigit) else D;
    var E := if One(s, F, 'p', 'P') then DigitRun(s, SignEnd(s, F + 1), Digit) else F;
    HexFacts(s, i, D, F, E);
    HexNumberIs(s, i, D, F, E);
    MantissaQuiet(s, i + 2, D, F, HexDigit, HEXADECIMAL);
    if One(s, F, 'p', 'P') {
      PoweredIs(s, F, 'p', 'P', "pP", E);
      assert QuietHex(s, i) <==> HexLiteral(s, i, r.1, D, F, E);
      HexFloat(s, i, r.1, D, F, E);
    } else if F > D {
      HexFloat(s, i, r.1, D, F, E);
      if HexLiteral(s, i, r.1, D, F, E) { PowerStarts(s, F, E, "pP"); }
    } else {
      PrefixedInt(s, i, r.1, D, HEXADECIMAL);
      DigitsRun(s, i + 2, D, HexDigit, HEXADECIMAL);
      assert F == D && !At(s, D, '.') && !r.0;
      Empty(s, D + 1, F, HexDigit);
      assert QuietHex(s, i) <==> RunOk(s, i + 2, D, HexDigit) && i + 2 < D;
    }
  }

  lemma HexFloat(s: string, i: nat, n: nat, D: nat, F: nat, E: nat)
    requires NumberStart(s, i) && Prefixed(s, i, "xX") && HexEnds(s, i, D, F, E) && n == HexNumber(s, i).1
    ensures FloatLiteral(s, i, n) <==> HexLiteral(s, i, n, D, F, E)
  {
    hide DigitRun, HexNumber, HexEnds, HexLiteral, DecLiteral;
    if d: nat, f: nat, e: nat :| HexLiteral(s, i, n, d, f, e) { HexUnique(s, i, d, f, e, D, F, E); }
    if d: nat, f: nat, e: nat :| DecLiteral(s, i, n, d, f, e) { NotDecimal(s, i, n, d, f, e); }
    if HexLiteral(s, i, n, D, F, E) { assert FloatLiteral(s, i, n); }
  }

  lemma BinExactly(s: string, i: nat)
    requires NumberStart(s, i) && Prefixed(s, i, "bB")
    ensures !Number(s, i).0 && (IntLiteral(s, i, Number(s, i).1) <==> QuietNumber(s, i) && !Slips(s, i))
  {
    hide DigitRun, Run, Digits, RunOk, LongEnd, IntLiteral;
    forall c: char ensures c in BINARY <==> BinDigit(c) { Sets(c); }
    var D := DigitRun(s, i + 2, BinDigit);
    RunIs(s, i + 2, BinDigit, BINARY);
    assert Number(s, i) == (false, LongEnd(s, D));
    PrefixedInt(s, i, LongEnd(s, D), D, BINARY);
    DigitsRun(s, i + 2, D, BinDigit, BINARY);
  }

  // ---- decimal and octal --------------------------------------------------

  lemma DecNumberIs(s: string, i: nat, d: nat, f: nat, e: nat)
    requires NumberStart(s, i) && !Prefixed(s, i, "xX") && !Prefixed(s, i, "bB") && DecEnds(s, i, d, f, e)
    ensures e <= |s| && i <= d
    ensures Number(s, i) == if e < |s| && FloatSuffix(s[e]) then (true, e + 1) else (s[i] == '.' || e > d, LongEnd(s, e))
  {
    hide DigitRun, FractionEnd, ExponentEnd;
  }

  lemma DecUnique(s: string, i: nat, d: nat, f: nat, e: nat, D: nat, F: nat, E: nat)
    requires NumberStart(s, i) && !Prefixed(s, i, "xX") && !Prefixed(s, i, "bB") && DecEnds(s, i, D, F, E)
    requires DecLiteral(s, i, Number(s, i).1, d, f, e)
    ensures d == D && f == F && e == E
  {
    hide DigitRun, Exponent, Run, Number, Powered, Mantissa, FractionEnd, ExponentEnd, Digits;
    var n := Number(s, i).1;
    DecFacts(s, i, D, F, E);
    DecNumberIs(s, i, D, F, E);
    MantissaBounds(s, i, d, f, DECIMAL);
    MantissaParts(s, i, d, f, DECIMAL);
    if e != f {
      PowerStarts(s, f, e, "eE");
      PoweredIs(s, f, 'e', 'E', "eE", e);
    }
    ExponentStarts(s, f, e);
    LongestRuns(s, i, D, DECIMAL);
    if d < D {
      Inside(s, i, D, d, DECIMAL);
      NotInRun(s[d], DECIMAL);
    } else if d < f && !Dots(s, d) {
      assert Fraction(s, d, f);
      FractionRun(s, D, F);
      if f < F {
        Inside(s, D + 1, F, f, DECIMAL);
        NotInRun(s[f], DECIMAL);
      } else if e < E {
        PowerEnds(s, f, e, E, n);
      }
    } else if d == f {
      PointOnly(s, d);
      if F == D && e < E { PowerEnds(s, f, e, E, n); }
    } else {
      ExponentStarts(s, F, E);
    }
  }

  lemma PowerEnds(s: string, f: nat, e: nat, E: nat, n: nat)
    requires (e == f || Exponent(s, f, e, "eE")) && Exponent(s, f, E, "eE") && e < E && Maybe(s, e, n, "fFdD")
    ensures n == e
  {
    ExponentStarts(s, f, E);
    if e > f { ExponentCut(s, f, e, E, n, "eE"); }
  }

  lemma DecFloat(s: string, i: nat, n: nat, D: nat, F: nat, E: nat)
    requires NumberStart(s, i) && !Prefixed(s, i, "xX") && !Prefixed(s, i, "bB") && DecEnds(s, i, D, F, E) && n == Number(s, i).1
    ensures FloatLiteral(s, i, n) <==> DecLiteral(s, i, n, D, F, E)
  {
    hide DigitRun, Number, DecEnds, DecLiteral;
    if d: nat, f: nat, e: nat :| DecLiteral(s, i, n, d, f, e) { DecUnique(s, i, d, f, e, D, F, E); }
    if DecLiteral(s, i, n, D, F, E) { assert FloatLiteral(s, i, n); }
  }

  /** Of the digits before the point only the last can be out of place: the first is a digit, and the others are digits or underscores. */
  lemma WholeQuiet(s: string, i: nat, D: nat)
    requires NumberStart(s, i) && D == (if s[i] == '.' then i else DigitRun(s, i, Digit))
    ensures i <= D <= |s| && (s[i] != '.' ==> i < D)
    ensures RunOk(s, i, D, Digit) <==> (s[i] != '.' ==> s[D - 1] != '_')
  {
    hide DigitRun;
    forall c: char ensures c in DECIMAL <==> Digit(c) { Sets(c); }
    NumberMoves(s, i);
    RunIs(s, i, Digit, DECIMAL);
  }

  lemma FloatExactly(s: string, i: nat)
    requires NumberStart(s, i) && !Prefixed(s, i, "xX") && !Prefixed(s, i, "bB") && Number(s, i).0
    ensures FloatLiteral(s, i, Number(s, i).1) <==> QuietNumber(s, i) && !Slips(s, i)
  {
    hide DigitRun, Exponent, Run, Powered, Mantissa, FractionEnd, ExponentEnd, Digits, RunOk, QuietExponent, FloatLiteral;
    forall c: char ensures c in DECIMAL <==> Digit(c) { Sets(c); }
    var D := if s[i] == '.' then i else DigitRun(s, i, Digit);
    var F := FractionEnd(s, D);
    var E := ExponentEnd(s, F);
    var n := Number(s, i).1;
    DecFacts(s, i, D, F, E);
    DecFloat(s, i, n, D, F, E);
    WholeQuiet(s, i, D);
    PointThere(s, D, F);
    MantissaQuiet(s, i, D, F, Digit, DECIMAL);
    if F < E {
      ExponentThere(s, F);
      PoweredIs(s, F, 'e', 'E', "eE", E);
    }
  }

  lemma PointThere(s: string, d: nat, f: nat)
    requires d <= |s| && f == FractionEnd(s, d)
    ensures d < f ==> s[d] == '.'
    ensures d < |s| && s[d] == '.' ==> !One(s, d, 'e', 'E')
  {
  }

  lemma ExponentThere(s: string, f: nat)
    requires f <= |s| && f < ExponentEnd(s, f)
    ensures One(s, f, 'e', 'E') && f < |s| && ExponentEnd(s, f) == DigitRun(s, SignEnd(s, f + 1), Digit)
  {
  }

  lemma {:induction false} UnderscoresAre(s: string, i: nat, n: nat)
    requires i <= n <= |s|
    ensures var o := UnderscoresEnd(s, i, n); (forall k :: i <= k < o ==> s[k] == '_') && (o < n ==> s[o] != '_')
    decreases n - i
  {
    if i < n && s[i] == '_' { UnderscoresAre(s, i + 1, n); }
  }

  /** After a zero there are underscores and octal digits if and only if nothing is reported. */
  lemma OctalExactly(s: string, i: nat, D: nat)
    requires i + 1 < D <= |s| && s[i] == '0'
    ensures (exists u: nat :: Octal(s, i, D, u)) <==> QuietOctal(s, i, D)
    ensures QuietOctal(s, i, D) ==> RunOk(s, i, D, Digit)
  {
    hide Digits;
    forall c: char ensures (c in OCTAL <==> OctDigit(c)) && (OctDigit(c) ==> Digit(c)) { Sets(c); }
    var o := UnderscoresEnd(s, i + 1, D);
    UnderscoresAre(s, i + 1, D);
    DigitsRun(s, o, D, OctDigit, OCTAL);
    if QuietOctal(s, i, D) { assert Octal(s, i, D, o); }
    if u: nat :| Octal(s, i, D, u) {
      assert s[u] in OCTAL by { DigitsFirst(s, u, D, OCTAL); }
      assert u == o;
    }
  }

  lemma DigitsFirst(s: string, a: nat, b: nat, digits: string)
    requires Digits(s, a, b, digits)
    ensures a < |s| && s[a] in digits
  {
  }

  lemma IntExactly(s: string, i: nat)
    requires NumberStart(s, i) && !Prefixed(s, i, "xX") && !Prefixed(s, i, "bB") && !Number(s, i).0
    ensures IntLiteral(s, i, Number(s, i).1) <==> QuietNumber(s, i)
  {
    hide DigitRun, Exponent, Run, FractionEnd, ExponentEnd, Digits, RunOk, QuietOctal, Octal, IntLiteral, Numeral;
    forall c: char ensures c in DECIMAL <==> Digit(c) { Sets(c); }
    var D := if s[i] == '.' then i else DigitRun(s, i, Digit);
    var F := FractionEnd(s, D);
    var E := ExponentEnd(s, F);
    DecFacts(s, i, D, F, E);
    DecNumberIs(s, i, D, F, E);
    assert s[i] != '.' && D == F == E && Number(s, i) == (false, LongEnd(s, D));
    WholeQuiet(s, i, D);
    Empty(s, D + 1, F, Digit);
    WholeNumeral(s, i, LongEnd(s, D), D);
    NumeralQuiet(s, i, D);
  }

  lemma NumeralQuiet(s: string, i: nat, D: nat)
    requires i < D <= |s| && !Prefixed(s, i, "xX") && !Prefixed(s, i, "bB") && s[i] in DECIMAL
    ensures Numeral(s, i, D) <==> RunOk(s, i, D, Digit) && (D - i > 1 && s[i] == '0' ==> QuietOctal(s, i, D))
  {
    hide RunOk, QuietOctal, Digits, Octal;
    forall c: char ensures c in DECIMAL <==> Digit(c) { Sets(c); }
    if s[i] == '0' {
      if D == i + 1 {
        OneDigit(s, i);
      } else {
        OctalExactly(s, i, D);
      }
    } else {
      DigitsRun(s, i, D, Digit, DECIMAL);
      if u: nat :| Octal(s, i, D, u) { OctalZero(s, i, D, u); }
    }
  }

  lemma OneDigit(s: string, i: nat)
    requires i < |s| && Digit(s[i])
    ensures RunOk(s, i, i + 1, Digit)
  {
  }

  lemma OctalZero(s: string, i: nat, D: nat, u: nat)
    requires Octal(s, i, D, u)
    ensures i < |s| && s[i] == '0'
  {
  }

  lemma WholeNumeral(s: string, i: nat, n: nat, D: nat)
    requires NumberStart(s, i) && !Prefixed(s, i, "xX") && !Prefixed(s, i, "bB") && s[i] != '.' && Longest(s, i, D, DECIMAL) && i < D && n == LongEnd(s, D)
    ensures IntLiteral(s, i, n) <==> Numeral(s, i, D)
  {
    hide Digits, Octal, Run;
    LongestRuns(s, i, D, DECIMAL);
    if Numeral(s, i, D) { assert Maybe(s, D, n, "lL"); }
    if d: nat :| Numeral(s, i, d) && Maybe(s, d, n, "lL") {
      NumeralRun(s, i, d);
      if d < D { Inside(s, i, D, d, DECIMAL); NotInRun(s[d], DECIMAL); }
    }
  }

  lemma NumeralRun(s: string, i: nat, d: nat)
    requires NumberStart(s, i) && !Prefixed(s, i, "xX") && !Prefixed(s, i, "bB") && Numeral(s, i, d)
    ensures Run(s, i, d, DECIMAL)
  {
    forall c: char ensures c in OCTAL ==> c in DECIMAL { Sets(c); }
    if Digits(s, i, d, DECIMAL) { DigitsAreRun(s, i, d, DECIMAL); }
  }

  /**
   * Nothing is reported of a number if and only if it is an integer or floating-point literal of the language, but for two
   * slips: an underscore right before the point, exponent or suffix of a decimal one, and a binary one without digits.
   */
  lemma LiteralExactly(s: string, i: nat)
    requires NumberStart(s, i)
    ensures var r := Number(s, i); (if r.0 then FloatLiteral(s, i, r.1) else IntLiteral(s, i, r.1)) <==> QuietNumber(s, i) && !Slips(s, i)
  {
    hide Number, HexNumber, FloatLiteral, IntLiteral, QuietHex;
    if Prefixed(s, i, "xX") {
      HexFirst(s, i);
      HexExactly(s, i);
      assert QuietNumber(s, i) == QuietHex(s, i) by { QuietPrefix(s, i); }
    } else if Prefixed(s, i, "bB") {
      BinExactly(s, i);
    } else if Number(s, i).0 {
      FloatExactly(s, i);
    } else {
      IntExactly(s, i);
      assert !Slips(s, i);
    }
  }

  lemma QuietPrefix(s: string, i: nat)
    requires NumberStart(s, i) && Prefixed(s, i, "xX")
    ensures QuietNumber(s, i) == QuietHex(s, i)
  {
  }

  /** 1_.5 and 0b are accepted, and are no literals. */
  lemma SlipsAccepted(s: string)
    requires s == "1_.5" || s == "0b"
    ensures NumberStart(s, 0) && Number(s, 0) == (s == "1_.5", |s|) && QuietNumber(s, 0)
    ensures !if s == "1_.5" then FloatLiteral(s, 0, |s|) else IntLiteral(s, 0, |s|)
  {
    hide FloatLiteral, IntLiteral;
    if s == "1_.5" {
      assert DigitRun(s, 2, Digit) == 2 && DigitRun(s, 1, Digit) == 2 && DigitRun(s, 4, Digit) == 4;
    } else {
      assert DigitRun(s, 2, BinDigit) == 2;
    }
    LiteralExactly(s, 0);
  }
}
