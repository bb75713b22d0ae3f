/** The scanner: one offset stepped through the text, tokens appended with what was seen before them. */
module Scanner {
  import opened Lexemes

  // ---- gaps grow ----------------------------------------------------------

  lemma {:induction false} GapWhite(keep: bool, s: string, i: nat, n: nat)
    requires i <= n < |s| && Gap(keep, s, i, n) && White(s[n])
    ensures Gap(keep, s, i, n + 1)
    decreases n - i
  {
    if i < n { GapWhite(keep, s, if White(s[i]) then i + 1 else CommentEnd(s, i), n); }
  }

  lemma {:induction false} GapComment(s: string, i: nat, n: nat)
    requires i <= n < |s| && Gap(false, s, i, n) && CommentStart(s, n)
    ensures Gap(false, s, i, CommentEnd(s, n))
    decreases n - i
  {
    if i < n { GapComment(s, if White(s[i]) then i + 1 else CommentEnd(s, i), n); }
  }

  lemma GapFits(keep: bool, s: string, i: nat, n: nat)
    requires n <= |s| && Gap(keep, s, i, n)
    ensures i <= n
  {
  }

  // ---- the scanner --------------------------------------------------------

  class Scanner {
    const u: Unicode
    const src: string
    const keep: bool
    var off: nat
    var toks: seq<Token>
    var diags: seq<(nat, nat)>
    var gap: bool
    var nl: bool

    constructor (u: Unicode, src: string, keep: bool)
      ensures this.u == u && this.src == src && this.keep == keep
      ensures Ready(0) && off == 0 && DiagsOk() && toks == []
    {
      this.u, this.src, this.keep := u, src, keep;
      off, toks, diags, gap, nl := 0, [], [], false, false;
    }

    /** Everything before pos has been accounted for, and the two flags say what lies since the last token. */
    ghost predicate Ready(pos: nat)
      reads this`toks, this`gap, this`nl
    {
      && LastEnd(toks) <= pos <= |src| && Gap(keep, src, LastEnd(toks), pos)
      && (forall k :: 0 <= k < |toks| ==> TokenOk(u, keep, src, toks, k))
      && (gap <==> LastEnd(toks) < pos || (toks != [] && toks[|toks| - 1].kind == COMMENT))
      && (nl <==> HasNewline(src, RealEnd(toks), pos))
    }

    /** No diagnostic is empty or outside the text. */
    ghost predicate DiagsOk()
      reads this`diags
    {
      forall k :: 0 <= k < |diags| ==> diags[k].0 < diags[k].1 <= |src|
    }

    method Error(pos: nat, end: nat)
      requires DiagsOk() && pos < |src|
      modifies this`diags
      ensures DiagsOk() && old(diags) <= diags && |diags| == |old(diags)| + 1
    {
      var e := end;
      if e <= pos { e := pos + 1; }
      if e > |src| { e := |src|; }
      diags := diags + [(pos, e)];
    }

    method Emit(k: Kind, pos: nat, end: nat)
      requires Ready(pos) && Spelled(u, src, k, pos, end) && k != COMMENT
      modifies this`toks, this`gap, this`nl
      ensures Ready(end) && |toks| == |old(toks)| + 1 && toks[..|old(toks)|] == old(toks)
      ensures var t := toks[|toks| - 1]; t.kind == k && t.pos == pos && t.end == end
    {
      hide Spelled, Gap, HasNewline;
      var adjacent := !gap && |toks| > 0;
      var t := Token(k, adjacent, nl, pos, end);
      assert Placed(keep, src, toks, t) by { SpelledSpan(u, src, k, pos, end); }
      ghost var was := toks;
      toks := toks + [t];
      AppendOk(u, keep, src, was, t);
      gap, nl := false, false;
      assert LastEnd(toks) == end && RealEnd(toks) == end;
      NoGap(keep, src, end);
      SpelledSpan(u, src, k, pos, end);
    }

    /** Line and block comments, kept or not: either way the next token is not adjacent. */
    method Comment(pos: nat, end: nat, multiline: bool)
      requires Ready(pos) && CommentStart(src, pos) && end == CommentEnd(src, pos) && (multiline <==> HasNewline(src, pos, end))
      modifies this`toks, this`gap, this`nl
      ensures Ready(end)
    {
      hide Spelled, Gap, HasNewline, CommentEnd, CommentStart;
      ghost var since := RealEnd(toks);
      RealWithin(u, keep, src, toks);
      if keep {
        var t := Token(COMMENT, !gap && |toks| > 0, nl, pos, end);
        assert Spelled(u, src, COMMENT, pos, end) by { CommentSpelled(u, src, pos); }
        SpelledSpan(u, src, COMMENT, pos, end);
        assert Placed(keep, src, toks, t);
        ghost var was := toks;
        toks := toks + [t];
        AppendOk(u, keep, src, was, t);
        NoGap(keep, src, end);
        assert toks[..|toks| - 1] == was;
      } else {
        GapComment(src, LastEnd(toks), pos);
        CommentSpelled(u, src, pos);
      }
      gap := true;
      if multiline { nl := true; }
      NewlineSplit(src, since, pos, end);
    }

    method ScanLineComment()
      requires Ready(off) && CommentStart(src, off) && src[off + 1] == '/'
      modifies this`off, this`toks, this`gap, this`nl
      ensures Ready(off) && off > old(off)
    {
      hide Ready;
      var pos := off;
      off := off + 2;
      while off < |src| && src[off] != '\n' && src[off] != '\r'
        invariant pos + 2 <= off <= |src| && LineEnd(src, pos + 2) == LineEnd(src, off)
        invariant forall k :: pos <= k < off ==> !Newline(src[k])
        invariant Ready(pos)
      {
        off := off + 1;
      }
      assert off == CommentEnd(src, pos);
      assert !HasNewline(src, pos, off);
      Comment(pos, off, false);
    }

    method ScanBlockComment()
      requires Ready(off) && CommentStart(src, off) && src[off + 1] == '*' && DiagsOk()
      modifies this
      ensures Ready(off) && off > old(off) && DiagsOk()
    {
      hide Ready;
      var pos := off;
      off := off + 2;
      var multiline := false;
      while off < |src|
        invariant pos + 2 <= off <= |src| && BlockEnd(src, pos + 2) == BlockEnd(src, off)
        invariant multiline <==> HasNewline(src, pos, off)
        invariant Ready(pos) && DiagsOk()
      {
        if src[off] == '*' {
          if At(src, off + 1, '/') {
            off := off + 2;
            assert HasNewline(src, pos, off) <==> HasNewline(src, pos, off - 2);
            Comment(pos, off, multiline);
            return;
          }
          off := off + 1;
        } else if Newline(src[off]) {
          multiline := true;
          off := off + 1;
        } else {
          off := off + 1;
        }
        NewlineSplit(src, pos, off - 1, off);
      }
      Error(pos, off);
      Comment(pos, off, multiline);
    }

    method SkipTrivia()
      requires Ready(off) && DiagsOk()
      modifies this
      ensures Ready(off) && off >= old(off) && DiagsOk()
      ensures off < |src| ==> !White(src[off]) && !CommentStart(src, off)
    {
      hide Ready;
      ReadyFits();
      while off < |src|
        invariant Ready(off) && old(off) <= off <= |src| && DiagsOk()
        decreases |src| - off
      {
        if White(src[off]) {
          var c := src[off];
          StepWhite();
          if c == '\r' && off < |src| && src[off] == '\n' { StepWhite(); }
        } else if src[off] == '/' {
          if off + 1 >= |src| { return; }
          if src[off + 1] == '/' {
            ScanLineComment();
          } else if src[off + 1] == '*' {
            ScanBlockComment();
          } else {
            return;
          }
          ReadyFits();
        } else {
          return;
        }
      }
    }

    method StepWhite()
      requires Ready(off) && off < |src| && White(src[off])
      modifies this`off, this`gap, this`nl
      ensures Ready(off) && off == old(off) + 1
    {
      hide Gap;
      GapWhite(keep, src, LastEnd(toks), off);
      RealWithin(u, keep, src, toks);
      NewlineSplit(src, RealEnd(toks), off, off + 1);
      gap := true;
      if Newline(src[off]) { nl := true; }
      off := off + 1;
    }

    lemma ReadyFits()
      requires Ready(off)
      ensures off <= |src|
    {
    }

    /** A word, or the one keyword with a hyphen in it; nothing when what stands here is no letter. */
    method ScanIdent(pos: nat) returns (ok: bool)
      requires Ready(pos) && off == pos < |src|
      modifies this`off, this`toks, this`gap, this`nl
      ensures ok == Letter(u, src, pos)
      ensures if ok then off > pos && Ready(off) else off == pos && Ready(pos)
    {
      hide Ready;
      if !Letter(u, src, pos) { return false; }
      var end := pos + Width(u, src, pos);
      LetterPart(u, src, pos);
      while end < |src| && Part(u, src, end)
        invariant pos < end <= |src| && WordEnd(u, src, pos) == WordEnd(u, src, end)
      {
        end := end + Width(u, src, end);
      }
      off := end;
      if src[pos..end] == "non" {
        var spliced := SpliceNonSealed(pos);
        if spliced { return true; }
      }
      Emit(WORD, pos, end);
      ok := true;
    }

    method SpliceNonSealed(pos: nat) returns (ok: bool)
      requires Ready(pos) && pos + 3 == off <= |src| && src[pos..off] == "non"
      modifies this`off, this`toks, this`gap, this`nl
      ensures ok == NonSealed(u, src, pos)
      ensures if ok then off == pos + 10 && Ready(off) else off == pos + 3 && Ready(pos)
    {
      hide Ready;
      Hyphenated(src, pos);
      if !Has(src, off, "-sealed") { return false; }
      var after := off + 7;
      if after < |src| && Part(u, src, after) { return false; }
      off := after;
      Emit(NON_SEALED, pos, after);
      ok := true;
    }

    /** One escape sequence. */
    method Escape()
      requires At(src, off, '\\') && DiagsOk()
      modifies this`off, this`diags
      ensures off == EscapeEnd(u, src, old(off)) && DiagsOk()
    {
      var start := off;
      off := off + 1;
      if off >= |src| {
        Error(start, off);
        return;
      }
      var c := src[off];
      if c in "bstnfr\"'\\" {
        off := off + 1;
      } else if OctDigit(c) {
        off := off + 1;
        if off < |src| && OctDigit(src[off]) {
          off := off + 1;
          if c <= '3' && off < |src| && OctDigit(src[off]) { off := off + 1; }
        }
      } else if Newline(c) {
        Error(start, off + 1);
        off := off + 1;
        if c == '\r' && At(src, off, '\n') { off := off + 1; }
      } else {
        off := off + Width(u, src, off);
        Error(start, off);
      }
    }

    /** A character literal; one with no character or with several is reported and kept. */
    method ScanChar(pos: nat)
      requires Ready(pos) && off == pos && At(src, pos, '\'') && DiagsOk()
      modifies this
      ensures off > pos && Ready(off) && DiagsOk()
    {
      hide Ready, EscapeEnd;
      off := off + 1;
      var n := 0;
      while off < |src|
        invariant pos < off <= |src| && DiagsOk() && Ready(pos)
        invariant LiteralEnd(u, src, pos + 1, '\'') == LiteralEnd(u, src, off, '\'')
        decreases |src| - off
      {
        if src[off] == '\'' {
          off := off + 1;
          if n != 1 { Error(pos, off); }
          Emit(CHAR, pos, off);
          return;
        }
        if Newline(src[off]) { break; }
        if src[off] == '\\' {
          Escape();
        } else {
          off := off + Width(u, src, off);
        }
        n := n + 1;
      }
      Error(pos, off);
      Emit(CHAR, pos, off);
    }

    method ScanString(pos: nat)
      requires Ready(pos) && off == pos && At(src, pos, '"') && !Has(src, pos, FENCE) && DiagsOk()
      modifies this
      ensures off > pos && Ready(off) && DiagsOk()
    {
      hide Ready, EscapeEnd;
      off := off + 1;
      while off < |src|
        invariant pos < off <= |src| && DiagsOk() && Ready(pos)
        invariant LiteralEnd(u, src, pos + 1, '"') == LiteralEnd(u, src, off, '"')
        decreases |src| - off
      {
        if src[off] == '"' {
          off := off + 1;
          Emit(STRING, pos, off);
          return;
        }
        if Newline(src[off]) { break; }
        if src[off] == '\\' {
          Escape();
        } else {
          off := off + Width(u, src, off);
        }
      }
      Error(pos, off);
      Emit(STRING, pos, off);
    }

    /** White space and the line terminator that must follow the opening delimiter. */
    method ScanOpening(pos: nat)
      requires off == pos && pos + 3 <= |src| && DiagsOk()
      modifies this`off, this`diags
      ensures off == Opening(src, pos + 3) && DiagsOk()
    {
      off := off + 3;
      while off < |src| && Blank(src[off])
        invariant pos + 3 <= off <= |src| && Blanks(src, pos + 3) == Blanks(src, off) && diags == old(diags)
      {
        off := off + 1;
      }
      if At(src, off, '\n') {
        off := off + 1;
      } else if At(src, off, '\r') {
        off := off + 1;
        if At(src, off, '\n') { off := off + 1; }
      } else {
        Error(pos, off);
      }
    }

    method ScanTextBlock(pos: nat)
      requires Ready(pos) && off == pos && Has(src, pos, FENCE) && DiagsOk()
      modifies this
      ensures off > pos && Ready(off) && DiagsOk()
    {
      hide Ready, Opening, Has;
      HasFits(src, pos, FENCE);
      ScanOpening(pos);
      while off < |src|
        invariant pos + 3 <= off <= |src| && DiagsOk() && Ready(pos)
        invariant TextEnd(u, src, Opening(src, pos + 3)) == TextEnd(u, src, off)
        decreases |src| - off
      {
        HasFits(src, off, FENCE);
        if src[off] == '\\' {
          off := off + 2;
          if off > |src| { off := |src|; }
        } else if src[off] == '"' {
          if Has(src, off, FENCE) {
            off := off + 3;
            Emit(TEXTBLOCK, pos, off);
            return;
          }
          off := off + 1;
        } else {
          off := off + Width(u, src, off);
        }
      }
      Error(pos, off);
      Emit(TEXTBLOCK, pos, off);
    }

    /** Digits of a radix, underscores, and stray decimal digits with them. */
    method Digits(ok: char -> bool)
      requires off <= |src|
      modifies this`off
      ensures off == DigitRun(src, old(off), ok)
    {
      while off < |src|
        invariant off <= |src| && DigitRun(src, old(off), ok) == DigitRun(src, off, ok)
      {
        var c := src[off];
        if !ok(c) && c != '_' && !Digit(c) { return; }
        off := off + 1;
      }
    }

    method IntSuffix()
      requires off <= |src|
      modifies this`off
      ensures off == LongEnd(src, old(off))
    {
      if At(src, off, 'l') || At(src, off, 'L') { off := off + 1; }
    }

    /** Underscores only between digits, digits only of the radix: at most one diagnostic, and one exactly when either rule is broken. */
    method CheckRun(lo: nat, hi: nat, ok: char -> bool)
      requires hi <= |src| && DiagsOk()
      modifies this`diags
      ensures DiagsOk()
      ensures diags == old(diags) <==> RunOk(src, lo, hi, ok)
      ensures old(diags) <= diags && |diags| <= |old(diags)| + 1
    {
      if lo >= hi { return; }
      if src[lo] == '_' || src[hi - 1] == '_' {
        Error(lo, hi);
        return;
      }
      for i := lo to hi
        invariant DiagsOk() && diags == old(diags) && forall k :: lo <= k < i ==> src[k] == '_' || ok(src[k])
      {
        if src[i] != '_' && !ok(src[i]) {
          Error(i, i + 1);
          return;
        }
      }
    }

    method Sign()
      requires off <= |src|
      modifies this`off
      ensures off == SignEnd(src, old(off))
    {
      if At(src, off, '+') || At(src, off, '-') { off := off + 1; }
    }

    /** A dot that does not head an ellipsis, and the digits after it. */
    method Fraction(start: nat, intEnd: nat) returns (found: bool)
      requires off <= |src| && start < |src| && DiagsOk()
      modifies this`off, this`diags
      ensures off == FractionEnd(src, old(off)) && DiagsOk() && (found <==> off > old(off)) && old(diags) <= diags
      ensures diags == old(diags) <==> RunOk(src, old(off) + 1, off, Digit) && (off == old(off) + 1 ==> intEnd != start)
    {
      found := At(src, off, '.') && !(At(src, off + 1, '.') && At(src, off + 2, '.'));
      if found {
        off := off + 1;
        var fs := off;
        Digits(Digit);
        if off > fs {
          CheckRun(fs, off, Digit);
        } else if intEnd == start {
          Error(start, off);
        }
      }
    }

    method Exponent(start: nat) returns (found: bool)
      requires off <= |src| && start < |src| && DiagsOk()
      modifies this`off, this`diags
      ensures off == ExponentEnd(src, old(off)) && DiagsOk() && (found <==> off > old(off)) && old(diags) <= diags
      ensures diags == old(diags) <==> (found ==> QuietExponent(src, old(off)))
    {
      found := At(src, off, 'e') || At(src, off, 'E');
      if found { ExponentDigits(start); }
    }

    /** After a zero the digits are octal, and underscores may stand before them. */
    method CheckOctal(start: nat, intEnd: nat)
      requires start + 1 < intEnd <= |src| && DiagsOk()
      modifies this`diags
      ensures DiagsOk() && old(diags) <= diags && (diags == old(diags) <==> QuietOctal(src, start, intEnd))
    {
      var os := start + 1;
      while os < intEnd && src[os] == '_'
        invariant start < os <= intEnd && UnderscoresEnd(src, start + 1, intEnd) == UnderscoresEnd(src, os, intEnd)
      {
        os := os + 1;
      }
      if os == intEnd { Error(start, intEnd); } else { CheckRun(os, intEnd, OctDigit); }
    }

    method ScanNumber() returns (k: Kind)
      requires NumberStart(src, off) && DiagsOk()
      modifies this`off, this`diags
      ensures DiagsOk() && k == (if Number(src, old(off)).0 then FLOAT else INT) && off == Number(src, old(off)).1
      ensures old(diags) <= diags && (diags == old(diags) <==> QuietNumber(src, old(off)))
    {
      hide DigitRun, FractionEnd, ExponentEnd, HexNumber, DiagsOk, QuietHex, QuietExponent, QuietOctal, RunOk;
      var start := off;
      if src[start] == '0' {
        if At(src, start + 1, 'x') || At(src, start + 1, 'X') {
          k := ScanHexNumber(start);
          return;
        }
        if At(src, start + 1, 'b') || At(src, start + 1, 'B') {
          off := off + 2;
          var ds := off;
          Digits(BinDigit);
          CheckRun(ds, off, BinDigit);
          IntSuffix();
          return INT;
        }
      }
      var isFloat := src[start] == '.';
      var intEnd := start;
      if !isFloat {
        Digits(Digit);
        intEnd := off;
      }
      NumberMoves(src, start);
      var fraction := Fraction(start, intEnd);
      var exponent := Exponent(start);
      isFloat := isFloat || fraction || exponent;
      if off < |src| && FloatSuffix(src[off]) {
        off := off + 1;
        isFloat := true;
      } else if At(src, off, 'l') || At(src, off, 'L') {
        if isFloat { Error(start, off + 1); }
        off := off + 1;
      }
      if isFloat { return FLOAT; }
      CheckRun(start, intEnd, Digit);
      if intEnd - start > 1 && src[start] == '0' { CheckOctal(start, intEnd); }
      k := INT;
    }

    method ScanHexNumber(start: nat) returns (k: Kind)
      requires off == start && start + 2 <= |src| && DiagsOk()
      modifies this`off, this`diags
      ensures DiagsOk() && k == (if HexNumber(src, start).0 then FLOAT else INT) && off == HexNumber(src, start).1
      ensures old(diags) <= diags && (diags == old(diags) <==> QuietHex(src, start))
    {
      hide DigitRun, SignEnd, LongEnd, DiagsOk;
      off := off + 2;
      var ds := off;
      Digits(HexDigit);
      var de := off;
      var hasDot := HexFraction(start, ds);
      if de > ds {
        CheckRun(ds, de, HexDigit);
      } else if !hasDot {
        Error(start, off);
      }
      if At(src, off, 'p') || At(src, off, 'P') {
        ExponentDigits(start);
        if off < |src| && FloatSuffix(src[off]) { off := off + 1; }
        return FLOAT;
      }
      if hasDot {
        Error(start, off);
        return FLOAT;
      }
      IntSuffix();
      k := INT;
    }

    method HexFraction(start: nat, ds: nat) returns (found: bool)
      requires start < ds <= off <= |src| && DiagsOk()
      modifies this`off, this`diags
      ensures DiagsOk() && found == At(src, old(off), '.')
      ensures off == if found then DigitRun(src, old(off) + 1, HexDigit) else old(off)
      ensures old(diags) <= diags
      ensures diags == old(diags) <==> RunOk(src, old(off) + 1, off, HexDigit) && (off == old(off) + 1 ==> old(off) != ds)
    {
      found := At(src, off, '.');
      if found {
        var de := off;
        off := off + 1;
        var fs := off;
        Digits(HexDigit);
        if off > fs {
          CheckRun(fs, off, HexDigit);
        } else if de == ds {
          Error(start, off);
        }
      }
    }

    /** After the exponent letter: a sign and decimal digits, in hexadecimal numbers too. */
    method ExponentDigits(start: nat)
      requires off < |src| && start < |src| && DiagsOk()
      modifies this`off, this`diags
      ensures DiagsOk() && off == DigitRun(src, SignEnd(src, old(off) + 1), Digit)
      ensures old(diags) <= diags && (diags == old(diags) <==> QuietExponent(src, old(off)))
    {
      off := off + 1;
      Sign();
      var es := off;
      Digits(Digit);
      if off == es { Error(start, off); } else { CheckRun(es, off, Digit); }
    }

    /** One rune, so the scan always advances. */
    method IllegalRune(pos: nat)
      requires Ready(pos) && off == pos < |src| && DiagsOk() && Spelled(u, src, ILLEGAL, pos, pos + Width(u, src, pos))
      modifies this
      ensures off > pos && Ready(off) && DiagsOk() && |diags| == |old(diags)| + 1
    {
      hide Ready, Spelled;
      off := pos + Width(u, src, pos);
      Error(pos, off);
      Emit(ILLEGAL, pos, off);
    }

    /** One token; whatever stands here, the scan moves on. */
    method ScanToken()
      requires Ready(off) && off < |src| && !White(src[off]) && !CommentStart(src, off) && DiagsOk()
      modifies this
      ensures off > old(off) && Ready(off) && DiagsOk()
    {
      hide Ready, Punct, CommentStart;
      var pos := off;
      var c := src[pos];
      if LetterByte(c) || !Ascii(c) {
        var ok := ScanIdent(pos);
        if ok { return; }
        assert Punct(src, pos) == "" by { NotAscii(src, pos); }
        IllegalRune(pos);
        return;
      }
      if NumberStart(src, pos) {
        var k := ScanNumber();
        Emit(k, pos, off);
        return;
      }
      if c == '"' {
        if Has(src, off, FENCE) { ScanTextBlock(pos); } else { ScanString(pos); }
        return;
      }
      if c == '\'' {
        ScanChar(pos);
        return;
      }
      var p := Punct(src, pos);
      if p == "" {
        IllegalRune(pos);
        return;
      }
      PunctStands(src, pos);
      off := pos + |p|;
      Emit(OP(p), pos, off);
    }

    /** The whole text. */
    method Run()
      requires Ready(0) && off == 0 && DiagsOk()
      modifies this
      ensures Tiled(u, keep, src, toks) && DiagsOk()
    {
      hide Ready;
      while true
        invariant Ready(off) && DiagsOk() && off <= |src|
        decreases |src| - off
      {
        SkipTrivia();
        if off >= |src| { break; }
        ScanToken();
        ReadyFits();
      }
      ReadyFits();
      Finish();
    }

    /** The token at the end of the text, the one that is empty. */
    method Finish()
      requires Ready(off) && off == |src|
      modifies this`toks, this`gap, this`nl
      ensures Tiled(u, keep, src, toks)
    {
      hide Gap, HasNewline, Spelled;
      var t := Token(EOF, !gap && |toks| > 0, nl, off, off);
      assert Placed(keep, src, toks, t);
      ghost var was := toks;
      toks := toks + [t];
      gap, nl := false, false;
      assert toks[..|toks| - 1] == was;
      forall k | 0 <= k < |toks| - 1
        ensures TokenOk(u, keep, src, toks, k)
      {
        assert TokenOk(u, keep, src, was, k) && toks[..k] == was[..k];
      }
    }
  }

  lemma SpelledSpan(u: Unicode, s: string, k: Kind, i: nat, n: nat)
    requires Spelled(u, s, k, i, n)
    ensures i < n <= |s| && k != EOF
  {
  }

  lemma NoGap(keep: bool, s: string, i: nat)
    requires i <= |s|
    ensures Gap(keep, s, i, i) && !HasNewline(s, i, i)
  {
  }

  /** A token added at the end leaves the ones before it as they were. */
  lemma AppendOk(u: Unicode, keep: bool, s: string, toks: seq<Token>, t: Token)
    requires forall k :: 0 <= k < |toks| ==> TokenOk(u, keep, s, toks, k)
    requires Placed(keep, s, toks, t) && Spelled(u, s, t.kind, t.pos, t.end) && (t.kind == COMMENT ==> keep)
    ensures forall k :: 0 <= k < |toks| + 1 ==> TokenOk(u, keep, s, toks + [t], k)
  {
    hide Placed, Spelled;
    forall k | 0 <= k < |toks| + 1
      ensures TokenOk(u, keep, s, toks + [t], k)
    {
      if k < |toks| {
        assert TokenOk(u, keep, s, toks, k) && (toks + [t])[..k] == toks[..k];
      } else {
        assert (toks + [t])[..k] == toks;
      }
    }
  }

  lemma CommentSpelled(u: Unicode, s: string, i: nat)
    requires CommentStart(s, i)
    ensures Spelled(u, s, COMMENT, i, CommentEnd(s, i)) && i < |s|
  {
  }

  lemma {:induction false} RealWithin(u: Unicode, keep: bool, s: string, toks: seq<Token>)
    requires forall k :: 0 <= k < |toks| ==> TokenOk(u, keep, s, toks, k)
    ensures RealEnd(toks) <= LastEnd(toks)
    decreases |toks|
  {
    hide Spelled, Gap, HasNewline;
    if toks != [] {
      var n := |toks| - 1;
      var init := toks[..n];
      forall k | 0 <= k < |init|
        ensures TokenOk(u, keep, s, init, k)
      {
        assert TokenOk(u, keep, s, toks, k) && init[..k] == toks[..k];
      }
      assert TokenOk(u, keep, s, toks, n);
      RealWithin(u, keep, s, init);
    }
  }

  lemma NewlineSplit(s: string, i: nat, m: nat, n: nat)
    requires i <= m <= n <= |s|
    ensures HasNewline(s, i, n) <==> HasNewline(s, i, m) || HasNewline(s, m, n)
    ensures n == m + 1 ==> (HasNewline(s, m, n) <==> Newline(s[m]))
  {
    if HasNewline(s, i, n) {
      var k :| i <= k < n && Newline(s[k]);
      assert k < m ==> HasNewline(s, i, m);
    }
  }

  lemma LetterPart(u: Unicode, s: string, i: nat)
    requires i < |s| && Letter(u, s, i)
    ensures WordEnd(u, s, i) == WordEnd(u, s, i + Width(u, s, i))
  {
  }

  lemma Hyphenated(s: string, i: nat)
    requires i + 3 <= |s| && s[i..i + 3] == "non"
    ensures Has(s, i, "non-sealed") <==> Has(s, i + 3, "-sealed")
  {
    if Has(s, i + 3, "-sealed") { assert s[i..i + 10] == s[i..i + 3] + s[i + 3..i + 10] == "non" + "-sealed"; }
    if Has(s, i, "non-sealed") { assert s[i + 3..i + 10] == s[i..i + 10][3..] == "-sealed"; }
  }

  lemma HasFits(s: string, i: nat, lit: string)
    ensures Has(s, i, lit) ==> i + |lit| <= |s| && (lit != "" ==> s[i] == lit[0])
  {
    if Has(s, i, lit) && lit != "" { assert s[i] == s[i..i + |lit|][0]; }
  }

  lemma NotAscii(s: string, i: nat)
    requires i < |s| && !Ascii(s[i])
    ensures Punct(s, i) == ""
  {
  }

  /** Scanning any text, well formed or not. */
  method Scan(u: Unicode, src: string, keep: bool) returns (toks: seq<Token>, diags: seq<(nat, nat)>)
    ensures Tiled(u, keep, src, toks)
    ensures forall k :: 0 <= k < |diags| ==> diags[k].0 < diags[k].1 <= |src|
  {
    var s := new Scanner(u, src, keep);
    s.Run();
    toks, diags := s.toks, s.diags;
  }
}
