/** What stands between tokens and what each token spells. A source is a string whose characters are bytes. */
module Lexemes {

  /** Decoding and classifying runes above ASCII. */
  datatype Unicode = Unicode(width: (string, nat) -> nat, letter: (string, nat) -> bool, part: (string, nat) -> bool)

  predicate Ascii(c: char) { c < 128 as char }

  function Width(u: Unicode, s: string, i: nat): (w: nat)
    requires i < |s|
    ensures 1 <= w <= |s| - i
  {
    if Ascii(s[i]) then 1 else if 1 <= u.width(s, i) <= |s| - i then u.width(s, i) else 1
  }

  predicate Digit(c: char) { '0' <= c <= '9' }

  predicate OctDigit(c: char) { '0' <= c <= '7' }

  predicate BinDigit(c: char) { c == '0' || c == '1' }

  predicate HexDigit(c: char) { Digit(c) || 'a' <= c <= 'f' || 'A' <= c <= 'F' }

  predicate LetterByte(c: char) { c == '$' || c == '_' || 'a' <= c <= 'z' || 'A' <= c <= 'Z' }

  predicate Letter(u: Unicode, s: string, i: nat)
    requires i < |s|
  {
    if Ascii(s[i]) then LetterByte(s[i]) else u.letter(s, i)
  }

  predicate Part(u: Unicode, s: string, i: nat)
    requires i < |s|
  {
    if Ascii(s[i]) then LetterByte(s[i]) || Digit(s[i]) else u.letter(s, i) || u.part(s, i)
  }

  predicate At(s: string, i: nat, c: char) { i < |s| && s[i] == c }

  predicate Has(s: string, i: nat, lit: string) { i + |lit| <= |s| && s[i..i + |lit|] == lit }

  predicate Newline(c: char) { c == '\n' || c == '\r' }

  predicate White(c: char) { c == ' ' || c == '\t' || c == '\U{C}' || Newline(c) }

  // ---- trivia -------------------------------------------------------------

  predicate CommentStart(s: string, i: nat) { At(s, i, '/') && (At(s, i + 1, '/') || At(s, i + 1, '*')) }

  function LineEnd(s: string, i: nat): (n: nat)
    requires i <= |s|
    ensures i <= n <= |s|
    decreases |s| - i
  {
    if i == |s| || Newline(s[i]) then i else LineEnd(s, i + 1)
  }

  /** Over the first closing mark, or to the end. */
  function BlockEnd(s: string, i: nat): (n: nat)
    requires i <= |s|
    ensures i <= n <= |s|
    decreases |s| - i
  {
    if i == |s| then i
    else if s[i] == '*' && At(s, i + 1, '/') then i + 2
    else BlockEnd(s, i + 1)
  }

  function CommentEnd(s: string, i: nat): (n: nat)
    requires CommentStart(s, i)
    ensures i + 2 <= n <= |s|
  {
    if s[i + 1] == '/' then LineEnd(s, i + 2) else BlockEnd(s, i + 2)
  }

  /** White space, and comments unless they are kept as tokens. */
  predicate Gap(keep: bool, s: string, i: nat, n: nat)
    requires n <= |s|
    decreases n - i
  {
    if i >= n then i == n
    else if White(s[i]) then Gap(keep, s, i + 1, n)
    else !keep && CommentStart(s, i) && Gap(keep, s, CommentEnd(s, i), n)
  }

  // ---- separators and operators -------------------------------------------

  /** Operators an equals sign may follow. */
  predicate Assigns(c: char) {
    c == '>' || c == '<' || c == '=' || c == '!' || c == '+' || c == '-' || c == '*' || c == '/' || c == '%' || c == '&' || c == '|' || c == '^'
  }

  /** Operators that may be doubled. */
  predicate Doubles(c: char) { c == '<' || c == '+' || c == '-' || c == '&' || c == '|' || c == ':' }

  predicate Alone(c: char) {
    c == '~' || c == '?' || c == '(' || c == ')' || c == '{' || c == '}' || c == '[' || c == ']' || c == ';' || c == ',' || c == '@'
  }

  /** Every separator and operator but those that begin with two `>`. */
  predicate Punctuation(q: string) {
    || (|q| == 1 && (Assigns(q[0]) || Alone(q[0]) || q[0] == ':' || q[0] == '.'))
    || (|q| == 2 && q[1] == '=' && Assigns(q[0]))
    || (|q| == 2 && q[1] == q[0] && Doubles(q[0]))
    || (|q| == 2 && q[0] == '-' && q[1] == '>')
    || (|q| == 3 && q[0] == '<' && q[1] == '<' && q[2] == '=')
    || (|q| == 3 && q[0] == '.' && q[1] == '.' && q[2] == '.')
  }

  /** The one that is spelled here, or nothing. */
  function Punct(s: string, i: nat): (p: string)
    requires i < |s|
  {
    var c := s[i];
    if c == '>' then (if At(s, i + 1, '=') then ">=" else ">")
    else if c == '<' then
      (if At(s, i + 1, '<') && At(s, i + 2, '=') then "<<="
       else if At(s, i + 1, '<') then "<<"
       else if At(s, i + 1, '=') then "<="
       else "<")
    else if c == '=' then (if At(s, i + 1, '=') then "==" else "=")
    else if c == '!' then (if At(s, i + 1, '=') then "!=" else "!")
    else if c == '+' then (if At(s, i + 1, '+') then "++" else if At(s, i + 1, '=') then "+=" else "+")
    else if c == '-' then (if At(s, i + 1, '-') then "--" else if At(s, i + 1, '=') then "-=" else if At(s, i + 1, '>') then "->" else "-")
    else if c == '*' then (if At(s, i + 1, '=') then "*=" else "*")
    else if c == '/' then (if At(s, i + 1, '=') then "/=" else "/")
    else if c == '%' then (if At(s, i + 1, '=') then "%=" else "%")
    else if c == '&' then (if At(s, i + 1, '&') then "&&" else if At(s, i + 1, '=') then "&=" else "&")
    else if c == '|' then (if At(s, i + 1, '|') then "||" else if At(s, i + 1, '=') then "|=" else "|")
    else if c == '^' then (if At(s, i + 1, '=') then "^=" else "^")
    else if c == ':' then (if At(s, i + 1, ':') then "::" else ":")
    else if c == '.' then (if At(s, i + 1, '.') && At(s, i + 2, '.') then "..." else ".")
    else if Alone(c) then [c]
    else ""
  }

  lemma HasChars(s: string, i: nat, q: string)
    requires 1 <= |q| <= 3
    ensures Has(s, i, q) <==> At(s, i, q[0]) && (|q| > 1 ==> At(s, i + 1, q[1])) && (|q| > 2 ==> At(s, i + 2, q[2]))
  {
    if Has(s, i, q) { assert forall k :: 0 <= k < |q| ==> s[i..i + |q|][k] == q[k]; }
  }

  lemma PunctStands(s: string, i: nat)
    requires i < |s| && Punct(s, i) != ""
    ensures Punctuation(Punct(s, i)) && Has(s, i, Punct(s, i))
  {
    HasChars(s, i, Punct(s, i));
  }

  lemma NoneLonger(s: string, i: nat, q: string)
    requires i < |s| && Punctuation(q) && Has(s, i, q)
    ensures 1 <= |q| <= |Punct(s, i)|
  {
    HasChars(s, i, q);
    hide Has;
    if |q| == 1 {
      Somewhere(s, i);
    } else if |q| == 2 {
      Paired(s, i);
    } else if s[i] == '<' {
    } else {
    }
  }

  lemma Somewhere(s: string, i: nat)
    requires i < |s| && (Assigns(s[i]) || Alone(s[i]) || s[i] == ':' || s[i] == '.')
    ensures |Punct(s, i)| >= 1
  {
  }

  lemma Paired(s: string, i: nat)
    requires i + 1 < |s|
    requires (s[i + 1] == '=' && Assigns(s[i])) || (s[i + 1] == s[i] && Doubles(s[i])) || (s[i] == '-' && s[i + 1] == '>')
    ensures |Punct(s, i)| >= 2
  {
  }

  /** Longest match: what is chosen stands here, and nothing longer in the table does. */
  lemma PunctLongest(s: string, i: nat)
    requires i < |s|
    ensures var p := Punct(s, i);
            if p == "" then forall q :: Punctuation(q) ==> !Has(s, i, q)
            else Punctuation(p) && Has(s, i, p) && forall q :: Punctuation(q) && Has(s, i, q) ==> |q| <= |p|
  {
    hide Punct, Punctuation, Has;
    if Punct(s, i) != "" { PunctStands(s, i); }
    forall q | Punctuation(q) && Has(s, i, q) ensures 1 <= |q| <= |Punct(s, i)| { NoneLonger(s, i, q); }
  }

  // ---- words --------------------------------------------------------------

  function WordEnd(u: Unicode, s: string, i: nat): (n: nat)
    requires i <= |s|
    ensures i <= n <= |s|
    decreases |s| - i
  {
    if i == |s| || !Part(u, s, i) then i else WordEnd(u, s, i + Width(u, s, i))
  }

  /** The hyphenated keyword, nothing else abutting it on the right. */
  predicate NonSealed(u: Unicode, s: string, i: nat) { Has(s, i, "non-sealed") && (i + 10 < |s| ==> !Part(u, s, i + 10)) }

  // ---- character and string literals, text blocks -------------------------

  /** Over one escape sequence; an invalid one is the backslash and the rune after it. */
  function EscapeEnd(u: Unicode, s: string, i: nat): (n: nat)
    requires At(s, i, '\\')
    ensures i < n <= |s|
  {
    if i + 1 == |s| then i + 1
    else
      var c := s[i + 1];
      if c in "bstnfr\"'\\" then i + 2
      else if OctDigit(c) then
        if !(i + 2 < |s| && OctDigit(s[i + 2])) then i + 2
        else if c <= '3' && i + 3 < |s| && OctDigit(s[i + 3]) then i + 4
        else i + 3
      else if Newline(c) then (if c == '\r' && At(s, i + 2, '\n') then i + 3 else i + 2)
      else i + 1 + Width(u, s, i + 1)
  }

  /** Over the closing quote, or to the line terminator or end that leaves the literal unterminated. */
  function LiteralEnd(u: Unicode, s: string, i: nat, quote: char): (n: nat)
    requires i <= |s|
    ensures i <= n <= |s|
    decreases |s| - i
  {
    if i == |s| || Newline(s[i]) then i
    else if s[i] == quote then i + 1
    else if s[i] == '\\' then LiteralEnd(u, s, EscapeEnd(u, s, i), quote)
    else LiteralEnd(u, s, i + Width(u, s, i), quote)
  }

  const FENCE := "\"\"\""

  /** A text block from after its opening: a backslash takes the next character with it. */
  function TextEnd(u: Unicode, s: string, i: nat): (n: nat)
    requires i <= |s|
    ensures i <= n <= |s|
    decreases |s| - i
  {
    if i == |s| then i
    else if s[i] == '\\' then (if i + 1 == |s| then i + 1 else TextEnd(u, s, i + 2))
    else if Has(s, i, FENCE) then i + 3
    else if s[i] == '"' then TextEnd(u, s, i + 1)
    else TextEnd(u, s, i + Width(u, s, i))
  }

  predicate Blank(c: char) { c == ' ' || c == '\t' || c == '\U{C}' }

  function Blanks(s: string, i: nat): (n: nat)
    requires i <= |s|
    ensures i <= n <= |s|
    decreases |s| - i
  {
    if i < |s| && Blank(s[i]) then Blanks(s, i + 1) else i
  }

  /** Over the line terminator that must follow the opening delimiter, when it is there. */
  function Opening(s: string, i: nat): (n: nat)
    requires i <= |s|
    ensures i <= n <= |s|
  {
    var k := Blanks(s, i);
    if At(s, k, '\n') then k + 1
    else if At(s, k, '\r') then (if At(s, k + 1, '\n') then k + 2 else k + 1)
    else k
  }

  // ---- numbers ------------------------------------------------------------

  /** Underscores only between digits, and digits only of the radix. */
  predicate RunOk(s: string, lo: nat, hi: nat, ok: char -> bool)
    requires hi <= |s|
  {
    lo < hi ==> s[lo] != '_' && s[hi - 1] != '_' && forall k :: lo <= k < hi ==> s[k] == '_' || ok(s[k])
  }

  predicate FloatSuffix(c: char) { c == 'f' || c == 'F' || c == 'd' || c == 'D' }

  predicate One(s: string, i: nat, c: char, d: char) { At(s, i, c) || At(s, i, d) }

  /** Digits of the radix and underscores; a decimal digit outside the radix stays in the run. */
  function DigitRun(s: string, i: nat, ok: char -> bool): (n: nat)
    requires i <= |s|
    ensures i <= n <= |s|
    decreases |s| - i
  {
    if i < |s| && (ok(s[i]) || s[i] == '_' || Digit(s[i])) then DigitRun(s, i + 1, ok) else i
  }

  /** A dot that does not head an ellipsis, and the digits after it. */
  function FractionEnd(s: string, i: nat): (n: nat)
    requires i <= |s|
    ensures i <= n <= |s|
  {
    if At(s, i, '.') && !(At(s, i + 1, '.') && At(s, i + 2, '.')) then DigitRun(s, i + 1, Digit) else i
  }

  function SignEnd(s: string, i: nat): (n: nat)
    requires i <= |s|
    ensures i <= n <= |s|
  {
    if One(s, i, '+', '-') then i + 1 else i
  }

  function ExponentEnd(s: string, i: nat): (n: nat)
    requires i <= |s|
    ensures i <= n <= |s|
  {
    if One(s, i, 'e', 'E') then DigitRun(s, SignEnd(s, i + 1), Digit) else i
  }

  function LongEnd(s: string, i: nat): (n: nat)
    requires i <= |s|
    ensures i <= n <= |s|
  {
    if One(s, i, 'l', 'L') then i + 1 else i
  }

  predicate NumberStart(s: string, i: nat) { i < |s| && (Digit(s[i]) || (s[i] == '.' && i + 1 < |s| && Digit(s[i + 1]))) }

  /** Whether a number is a floating-point literal, and where it ends. */
  function Number(s: string, i: nat): (r: (bool, nat))
    requires NumberStart(s, i)
    ensures i < r.1 <= |s|
  {
    if s[i] == '0' && One(s, i + 1, 'x', 'X') then HexNumber(s, i)
    else if s[i] == '0' && One(s, i + 1, 'b', 'B') then (false, LongEnd(s, DigitRun(s, i + 2, BinDigit)))
    else
      var d := if s[i] == '.' then i else DigitRun(s, i, Digit);
      var f := FractionEnd(s, d);
      var e := ExponentEnd(s, f);
      assert i < e by { NumberMoves(s, i); }
      if e < |s| && FloatSuffix(s[e]) then (true, e + 1) else (s[i] == '.' || e > d, LongEnd(s, e))
  }

  lemma NumberMoves(s: string, i: nat)
    requires NumberStart(s, i)
    ensures if s[i] == '.' then FractionEnd(s, i) > i + 1 else DigitRun(s, i, Digit) > i
  {
  }

  function HexNumber(s: string, i: nat): (r: (bool, nat))
    requires i + 2 <= |s|
    ensures i < r.1 <= |s|
  {
    var d := DigitRun(s, i + 2, HexDigit);
    var f := if At(s, d, '.') then DigitRun(s, d + 1, HexDigit) else d;
    if One(s, f, 'p', 'P') then
      var r := DigitRun(s, SignEnd(s, f + 1), Digit);
      (true, if r < |s| && FloatSuffix(s[r]) then r + 1 else r)
    else if f > d then (true, f)
    else (false, LongEnd(s, f))
  }

  // ---- what is reported of a number ---------------------------------------

  /** The digits after an exponent letter. */
  predicate QuietExponent(s: string, i: nat)
    requires i < |s|
  {
    var g := SignEnd(s, i + 1);
    g < DigitRun(s, g, Digit) && RunOk(s, g, DigitRun(s, g, Digit), Digit)
  }

  predicate QuietHex(s: string, i: nat)
    requires i + 2 <= |s|
  {
    var d := DigitRun(s, i + 2, HexDigit);
    var dot := At(s, d, '.');
    var f := if dot then DigitRun(s, d + 1, HexDigit) else d;
    && RunOk(s, i + 2, d, HexDigit) && RunOk(s, d + 1, f, HexDigit) && (i + 2 < d || d + 1 < f)
    && if One(s, f, 'p', 'P') then QuietExponent(s, f) else !dot
  }

  function UnderscoresEnd(s: string, i: nat, n: nat): (r: nat)
    requires i <= n <= |s|
    ensures i <= r <= n
    decreases n - i
  {
    if i < n && s[i] == '_' then UnderscoresEnd(s, i + 1, n) else i
  }

  predicate QuietOctal(s: string, i: nat, d: nat)
    requires i + 1 < d <= |s|
  {
    var o := UnderscoresEnd(s, i + 1, d);
    o < d && RunOk(s, o, d, OctDigit)
  }

  /** In a floating-point number the digits before the point are not looked at, and a binary one need not have any digits. */
  predicate QuietNumber(s: string, i: nat)
    requires NumberStart(s, i)
  {
    if s[i] == '0' && One(s, i + 1, 'x', 'X') then QuietHex(s, i)
    else if s[i] == '0' && One(s, i + 1, 'b', 'B') then RunOk(s, i + 2, DigitRun(s, i + 2, BinDigit), BinDigit)
    else
      var d := if s[i] == '.' then i else DigitRun(s, i, Digit);
      var f := FractionEnd(s, d);
      var e := ExponentEnd(s, f);
      && RunOk(s, d + 1, f, Digit) && (f < e ==> QuietExponent(s, f))
      && if Number(s, i).0 then !(d < e && One(s, e, 'l', 'L'))
         else RunOk(s, i, d, Digit) && (d - i > 1 && s[i] == '0' ==> QuietOctal(s, i, d))
  }

  // ---- tokens -------------------------------------------------------------

  datatype Kind = EOF | ILLEGAL | WORD | NON_SEALED | INT | FLOAT | CHAR | STRING | TEXTBLOCK | COMMENT | OP(text: string)

  datatype Token = Token(kind: Kind, adjacent: bool, nlBefore: bool, pos: nat, end: nat)

  /** The token of the kind, and no other, is spelled from i to n. */
  predicate Spelled(u: Unicode, s: string, k: Kind, i: nat, n: nat) {
    && i < n <= |s|
    && match k
       case EOF => false
       case WORD => Letter(u, s, i) && n == WordEnd(u, s, i) && !(s[i..n] == "non" && NonSealed(u, s, i))
       case NON_SEALED => n == i + 10 && NonSealed(u, s, i)
       case INT => NumberStart(s, i) && Number(s, i) == (false, n)
       case FLOAT => NumberStart(s, i) && Number(s, i) == (true, n)
       case CHAR => s[i] == '\'' && n == LiteralEnd(u, s, i + 1, '\'')
       case STRING => s[i] == '"' && !Has(s, i, FENCE) && n == LiteralEnd(u, s, i + 1, '"')
       case TEXTBLOCK => Has(s, i, FENCE) && n == TextEnd(u, s, Opening(s, i + 3))
       case COMMENT => CommentStart(s, i) && n == CommentEnd(s, i)
       case OP(text) => !NumberStart(s, i) && !CommentStart(s, i) && text != "" && text == Punct(s, i) && n == i + |text|
       case ILLEGAL => n == i + Width(u, s, i) && !White(s[i]) && !Letter(u, s, i) && !NumberStart(s, i) && s[i] != '"' && s[i] != '\'' && Punct(s, i) == ""
  }

  // ---- a stream of tokens over the text -----------------------------------

  function LastEnd(toks: seq<Token>): nat { if toks == [] then 0 else toks[|toks| - 1].end }

  /** The end of the last token that is not a comment. */
  function RealEnd(toks: seq<Token>): nat {
    if toks == [] then 0 else if toks[|toks| - 1].kind == COMMENT then RealEnd(toks[..|toks| - 1]) else LastEnd(toks)
  }

  predicate HasNewline(s: string, i: nat, n: nat)
    requires n <= |s|
  {
    exists k :: i <= k < n && Newline(s[k])
  }

  /** Where a token stands after the tokens before it: what the gap is and what its flags say about it. */
  predicate Placed(keep: bool, s: string, before: seq<Token>, t: Token) {
    && LastEnd(before) <= t.pos <= t.end <= |s|
    && Gap(keep, s, LastEnd(before), t.pos)
    && (t.adjacent <==> before != [] && before[|before| - 1].kind != COMMENT && LastEnd(before) == t.pos)
    && (t.nlBefore <==> HasNewline(s, RealEnd(before), t.pos))
  }

  predicate TokenOk(u: Unicode, keep: bool, s: string, toks: seq<Token>, k: nat)
    requires k < |toks|
  {
    Placed(keep, s, toks[..k], toks[k]) && Spelled(u, s, toks[k].kind, toks[k].pos, toks[k].end) && (toks[k].kind == COMMENT ==> keep)
  }

  /** The whole stream: tokens one after another, and at the end of the text the one that is empty. */
  predicate Tiled(u: Unicode, keep: bool, s: string, toks: seq<Token>) {
    && toks != []
    && (forall k :: 0 <= k < |toks| - 1 ==> TokenOk(u, keep, s, toks, k))
    && var last := toks[|toks| - 1];
       last.kind == EOF && last.pos == last.end == |s| && Placed(keep, s, toks[..|toks| - 1], last)
  }
}
