/** Where comments, words, escapes and literals end, told without stepping through them. */
module Extents {
  import opened Lexemes

  // ---- comments -----------------------------------------------------------

  /** A line comment ends at the first line terminator, or with the text. */
  lemma {:induction false} LineEndExactly(s: string, i: nat, n: nat)
    requires i <= |s|
    ensures n == LineEnd(s, i) <==> i <= n <= |s| && (forall k :: i <= k < n ==> !Newline(s[k])) && (n < |s| ==> Newline(s[n]))
    decreases |s| - i
  {
    if i < |s| && !Newline(s[i]) { LineEndExactly(s, i + 1, n); }
  }

  predicate Closes(s: string, k: nat) { k + 1 < |s| && s[k] == '*' && s[k + 1] == '/' }

  /** A block comment ends over the first closing mark after its opening, or with the text. */
  lemma {:induction false} BlockEndExactly(s: string, i: nat, n: nat)
    requires i <= |s|
    ensures n == BlockEnd(s, i) <==>
              || (i + 2 <= n && Closes(s, n - 2) && forall k :: i <= k < n - 2 ==> !Closes(s, k))
              || (n == |s| && forall k :: i <= k < |s| ==> !Closes(s, k))
    decreases |s| - i
  {
    if i < |s| {
      assert Closes(s, i) <==> s[i] == '*' && At(s, i + 1, '/');
      if !Closes(s, i) { BlockEndExactly(s, i + 1, n); }
    }
  }

  // ---- words --------------------------------------------------------------

  predicate WordChar(c: char) { 'a' <= c <= 'z' || 'A' <= c <= 'Z' || '0' <= c <= '9' || c == '_' || c == '$' }

  /** Among ASCII characters a word is the longest run of letters, digits, underscores and dollar signs. */
  lemma {:induction false} WordEndExactly(u: Unicode, s: string, i: nat, n: nat)
    requires i <= |s| && forall k :: i <= k < |s| ==> Ascii(s[k])
    ensures n == WordEnd(u, s, i) <==> i <= n <= |s| && (forall k :: i <= k < n ==> WordChar(s[k])) && (n < |s| ==> !WordChar(s[n]))
    decreases |s| - i
  {
    if i < |s| {
      assert Part(u, s, i) <==> WordChar(s[i]);
      if WordChar(s[i]) { WordEndExactly(u, s, i + 1, n); }
    }
  }

  // ---- escapes ------------------------------------------------------------

  /** Section 3.10.7 of the Java Language Specification: a letter, a quote or a backslash, up to three octal digits, or a line terminator. */
  predicate Escape(s: string, i: nat, n: nat) {
    && i + 1 < n <= |s| && s[i] == '\\'
    && (|| (n == i + 2 && s[i + 1] in "bstnfr\"'\\")
        || (n == i + 2 && OctDigit(s[i + 1]))
        || (n == i + 3 && OctDigit(s[i + 1]) && OctDigit(s[i + 2]))
        || (n == i + 4 && '0' <= s[i + 1] <= '3' && OctDigit(s[i + 2]) && OctDigit(s[i + 3]))
        || (n == i + 2 && Newline(s[i + 1]))
        || (n == i + 3 && s[i + 1] == '\r' && s[i + 2] == '\n'))
  }

  /** The scanner goes over the longest escape there; where there is none, over the backslash and the rune after it. */
  lemma EscapeExactly(u: Unicode, s: string, i: nat, n: nat)
    requires At(s, i, '\\')
    ensures if exists m :: Escape(s, i, m) then n == EscapeEnd(u, s, i) <==> Escape(s, i, n) && forall m: nat :: Escape(s, i, m) ==> m <= n
            else EscapeEnd(u, s, i) == if i + 1 == |s| then i + 1 else i + 1 + Width(u, s, i + 1)
  {
    var e := EscapeEnd(u, s, i);
    if i + 1 < |s| && (s[i + 1] in "bstnfr\"'\\" || OctDigit(s[i + 1]) || Newline(s[i + 1])) { assert Escape(s, i, e); }
  }

  // ---- literals -----------------------------------------------------------

  /** Runes that are no quote, backslash or line terminator, and what the scanner takes for escapes. */
  ghost predicate Units(u: Unicode, s: string, i: nat, n: nat, quote: char)
    requires n <= |s|
    decreases n - i
  {
    if i >= n then i == n
    else if s[i] == '\\' then Units(u, s, EscapeEnd(u, s, i), n, quote)
    else s[i] != quote && !Newline(s[i]) && Units(u, s, i + Width(u, s, i), n, quote)
  }

  lemma UnitsForward(u: Unicode, s: string, i: nat, n: nat, quote: char)
    requires n <= |s|
    ensures Units(u, s, i, n, quote) ==> i <= n
  {
  }

  /** A character or string literal is such units and the closing quote, or stops before a line terminator or the end of the text. */
  lemma {:induction false} LiteralEndExactly(u: Unicode, s: string, i: nat, quote: char, n: nat)
    requires i <= |s| && quote != '\\' && !Newline(quote)
    ensures n == LiteralEnd(u, s, i, quote) <==>
              || (i < n <= |s| && s[n - 1] == quote && Units(u, s, i, n - 1, quote))
              || (i <= n <= |s| && (n < |s| ==> Newline(s[n])) && Units(u, s, i, n, quote))
    decreases |s| - i
  {
    hide EscapeEnd, Width;
    if i < |s| && !Newline(s[i]) && s[i] != quote {
      var k := if s[i] == '\\' then EscapeEnd(u, s, i) else i + Width(u, s, i);
      LiteralEndExactly(u, s, k, quote, n);
      if n <= |s| { UnitsForward(u, s, k, n, quote); }
      if 0 < n <= |s| { UnitsForward(u, s, k, n - 1, quote); }
    } else if i < |s| {
      assert forall m :: i < m <= |s| ==> !Units(u, s, i, m, quote);
    }
  }

  // ---- text blocks --------------------------------------------------------

  /** A delimiter that no backslash takes away ends the block; a backslash takes the character after it. */
  ghost predicate Inside(u: Unicode, s: string, i: nat, n: nat)
    requires n <= |s|
    decreases n - i
  {
    if i >= n then i == n
    else if s[i] == '\\' then Inside(u, s, i + 2, n)
    else !Has(s, i, "\"\"\"") && Inside(u, s, if s[i] == '"' then i + 1 else i + Width(u, s, i), n)
  }

  /** A text block ends over the first delimiter that is not taken away, or with the text. */
  lemma {:induction false} TextEndExactly(u: Unicode, s: string, i: nat, n: nat)
    requires i <= |s|
    ensures n == TextEnd(u, s, i) <==>
              || (i + 3 <= n <= |s| && Has(s, n - 3, "\"\"\"") && s[n - 3] != '\\' && Inside(u, s, i, n - 3))
              || (n == |s| && (Inside(u, s, i, n) || (n > 0 && s[n - 1] == '\\' && i < n && Inside(u, s, i, n - 1))))
    decreases |s| - i
  {
    hide Width;
    if i < |s| {
      if s[i] == '\\' {
        if i + 1 < |s| { TextEndExactly(u, s, i + 2, n); }
      } else if !Has(s, i, FENCE) {
        TextEndExactly(u, s, if s[i] == '"' then i + 1 else i + Width(u, s, i), n);
      }
    }
  }
}
