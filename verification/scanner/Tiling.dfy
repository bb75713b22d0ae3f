/** What a tiled stream says about its text: it is the only one, it rebuilds the text, and shifts are rejoined exactly. */
module Tiling {
  import opened Lexemes
  import P = Precedence

  // ---- the text decides the stream ----------------------------------------

  /** Of two gaps from one place the shorter stops where more trivia stands. */
  lemma {:induction false} GapStops(keep: bool, s: string, i: nat, n: nat, m: nat)
    requires n < m <= |s| && Gap(keep, s, i, n) && Gap(keep, s, i, m)
    ensures White(s[n]) || (!keep && CommentStart(s, n))
    decreases m - i
  {
    if i < n { GapStops(keep, s, if White(s[i]) then i + 1 else CommentEnd(s, i), n, m); }
  }

  /** A token never begins with trivia. */
  lemma SpelledStarts(u: Unicode, s: string, k: Kind, i: nat, n: nat)
    requires Spelled(u, s, k, i, n)
    ensures i < n <= |s| && !White(s[i]) && (k != COMMENT ==> !CommentStart(s, i))
  {
  }

  lemma NonSealedWord(u: Unicode, s: string, i: nat)
    requires NonSealed(u, s, i)
    ensures i < |s| && Letter(u, s, i) && WordEnd(u, s, i) == i + 3 && s[i..i + 3] == "non"
  {
    var w := s[i..i + 10];
    assert s[i] == w[0] && s[i + 1] == w[1] && s[i + 2] == w[2] && s[i + 3] == w[3];
    assert !Part(u, s, i + 3) && WordEnd(u, s, i + 3) == i + 3;
    assert WordEnd(u, s, i + 2) == i + 3;
    assert WordEnd(u, s, i + 1) == i + 3;
  }

  datatype Start = Comment | Word | Numeral | Quoted | Tick | Operator | Nothing

  /** What the first characters call for. */
  function StartOf(u: Unicode, s: string, i: nat): Start
    requires i < |s|
  {
    if CommentStart(s, i) then Comment
    else if Letter(u, s, i) then Word
    else if NumberStart(s, i) then Numeral
    else if s[i] == '"' then Quoted
    else if s[i] == '\'' then Tick
    else if Punct(s, i) != "" then Operator
    else Nothing
  }

  function StartFor(k: Kind): Start {
    match k
    case COMMENT => Comment
    case WORD => Word
    case NON_SEALED => Word
    case INT => Numeral
    case FLOAT => Numeral
    case CHAR => Tick
    case STRING => Quoted
    case TEXTBLOCK => Quoted
    case OP(_) => Operator
    case _ => Nothing
  }

  lemma StartDecides(u: Unicode, s: string, k: Kind, i: nat, n: nat)
    requires Spelled(u, s, k, i, n)
    ensures StartOf(u, s, i) == StartFor(k)
  {
    hide WordEnd, LiteralEnd, TextEnd, Number, CommentEnd, NonSealed;
    if k == NON_SEALED { NonSealedWord(u, s, i); }
    if k == TEXTBLOCK { assert s[i] == s[i..i + 3][0]; }
    if k == WORD && !Ascii(s[i]) { assert Punct(s, i) == ""; }
  }

  /** One kind and one end are spelled at a place, at most. */
  lemma SpelledUnique(u: Unicode, s: string, k: Kind, n: nat, l: Kind, m: nat, i: nat)
    requires Spelled(u, s, k, i, n) && Spelled(u, s, l, i, m)
    ensures k == l && n == m
  {
    hide WordEnd, LiteralEnd, TextEnd, Number, CommentEnd, NonSealed, Punct, CommentStart, Letter, NumberStart;
    StartDecides(u, s, k, i, n);
    StartDecides(u, s, l, i, m);
    if k == NON_SEALED || l == NON_SEALED { NonSealedWord(u, s, i); }
  }

  /** After equal tokens comes an equal token, or the end of both streams. */
  lemma NextSame(u: Unicode, keep: bool, s: string, a: seq<Token>, b: seq<Token>, k: nat)
    requires Tiled(u, keep, s, a) && Tiled(u, keep, s, b) && k < |a| && k < |b| && a[..k] == b[..k]
    ensures a[k] == b[k] && (k == |a| - 1 <==> k == |b| - 1)
  {
    hide Gap, HasNewline, Spelled;
    assert k < |a| - 1 ==> TokenOk(u, keep, s, a, k);
    assert k < |b| - 1 ==> TokenOk(u, keep, s, b, k);
    if k < |a| - 1 { SpelledStarts(u, s, a[k].kind, a[k].pos, a[k].end); }
    if k < |b| - 1 { SpelledStarts(u, s, b[k].kind, b[k].pos, b[k].end); }
    CommentKept(u, keep, s, a, k);
    CommentKept(u, keep, s, b, k);
    if a[k].pos < b[k].pos { GapStops(keep, s, LastEnd(a[..k]), a[k].pos, b[k].pos); }
    if b[k].pos < a[k].pos { GapStops(keep, s, LastEnd(a[..k]), b[k].pos, a[k].pos); }
    if k < |a| - 1 && k < |b| - 1 { SpelledUnique(u, s, a[k].kind, a[k].end, b[k].kind, b[k].end, a[k].pos); }
  }

  lemma CommentKept(u: Unicode, keep: bool, s: string, toks: seq<Token>, k: nat)
    requires Tiled(u, keep, s, toks) && k < |toks|
    ensures toks[k].kind == COMMENT ==> keep
  {
    assert k < |toks| - 1 ==> TokenOk(u, keep, s, toks, k);
  }

  lemma {:induction false} PrefixSame(u: Unicode, keep: bool, s: string, a: seq<Token>, b: seq<Token>, k: nat)
    requires Tiled(u, keep, s, a) && Tiled(u, keep, s, b) && k <= |a|
    ensures k <= |b| && a[..k] == b[..k]
    decreases k
  {
    hide Tiled;
    if k > 0 {
      PrefixSame(u, keep, s, a, b, k - 1);
      if k > 1 {
        assert a[..k - 2] == a[..k - 1][..k - 2] && b[..k - 2] == b[..k - 1][..k - 2];
        NextSame(u, keep, s, a, b, k - 2);
      } else {
        TiledSome(u, keep, s, b);
      }
      NextSame(u, keep, s, a, b, k - 1);
      assert a[..k] == a[..k - 1] + [a[k - 1]] && b[..k] == b[..k - 1] + [b[k - 1]];
    }
  }

  lemma TiledSome(u: Unicode, keep: bool, s: string, toks: seq<Token>)
    requires Tiled(u, keep, s, toks)
    ensures toks != []
  {
  }

  /** A text has one token stream: kinds, spans and flags. */
  lemma TiledUnique(u: Unicode, keep: bool, s: string, a: seq<Token>, b: seq<Token>)
    requires Tiled(u, keep, s, a) && Tiled(u, keep, s, b)
    ensures a == b
  {
    hide Tiled;
    PrefixSame(u, keep, s, a, b, |a|);
    PrefixSame(u, keep, s, b, a, |b|);
    assert a[..|a|] == a && b[..|b|] == b;
  }

  // ---- nothing is lost ----------------------------------------------------

  function EndBefore(toks: seq<Token>, k: nat): nat
    requires k <= |toks|
  {
    if k == 0 then 0 else toks[k - 1].end
  }

  predicate InOrder(s: string, toks: seq<Token>) { forall k :: 0 <= k < |toks| ==> EndBefore(toks, k) <= toks[k].pos <= toks[k].end <= |s| }

  /** The gap before each of the first tokens and the token, one after another. */
  function Rebuild(s: string, toks: seq<Token>, n: nat): string
    requires n <= |toks| && InOrder(s, toks)
  {
    if n == 0 then ""
    else Rebuild(s, toks, n - 1) + s[EndBefore(toks, n - 1)..toks[n - 1].pos] + s[toks[n - 1].pos..toks[n - 1].end]
  }

  lemma {:induction false} RebuildsTo(s: string, toks: seq<Token>, n: nat)
    requires n <= |toks| && InOrder(s, toks)
    ensures EndBefore(toks, n) <= |s| && Rebuild(s, toks, n) == s[..EndBefore(toks, n)]
    decreases n
  {
    if n > 0 {
      RebuildsTo(s, toks, n - 1);
      var t := toks[n - 1];
      assert s[..EndBefore(toks, n - 1)] + s[EndBefore(toks, n - 1)..t.pos] + s[t.pos..t.end] == s[..t.end];
    }
  }

  lemma TiledInOrder(u: Unicode, keep: bool, s: string, toks: seq<Token>)
    requires Tiled(u, keep, s, toks)
    ensures InOrder(s, toks) && EndBefore(toks, |toks|) == |s|
  {
    hide Gap, HasNewline, Spelled;
    forall k | 0 <= k < |toks|
      ensures EndBefore(toks, k) <= toks[k].pos <= toks[k].end <= |s|
    {
      assert LastEnd(toks[..k]) == EndBefore(toks, k);
      if k < |toks| - 1 { assert TokenOk(u, keep, s, toks, k); }
    }
  }

  /** Gaps and tokens together are the text. */
  lemma SourceRebuilt(u: Unicode, keep: bool, s: string, toks: seq<Token>)
    requires Tiled(u, keep, s, toks)
    ensures InOrder(s, toks) && Rebuild(s, toks, |toks|) == s
  {
    hide Tiled;
    TiledInOrder(u, keep, s, toks);
    RebuildsTo(s, toks, |toks|);
  }

  // ---- rejoining shifts ---------------------------------------------------

  function AsParsed(t: Token): P.Token {
    P.Token(if t.kind == OP(">") then P.Sym(P.GTR) else if t.kind == OP(">=") then P.Sym(P.GEQ) else P.Other(0), t.adjacent)
  }

  function Parsed(toks: seq<Token>): seq<P.Token> { seq(|toks|, k requires 0 <= k < |toks| => AsParsed(toks[k])) }

  /** The longest shift operator, compound or not, spelled here. */
  function LongestShift(s: string, p: nat): P.Joined {
    if Has(s, p, ">>>=") then P.ShiftAssign(3)
    else if Has(s, p, ">>>") then P.Shift(P.USHR, 3)
    else if Has(s, p, ">>=") then P.ShiftAssign(2)
    else if Has(s, p, ">>") then P.Shift(P.SHR, 2)
    else P.NoJoin
  }

  lemma ShiftChars(s: string, p: nat)
    ensures Has(s, p, ">>") <==> At(s, p, '>') && At(s, p + 1, '>')
    ensures Has(s, p, ">>=") <==> At(s, p, '>') && At(s, p + 1, '>') && At(s, p + 2, '=')
    ensures Has(s, p, ">>>") <==> At(s, p, '>') && At(s, p + 1, '>') && At(s, p + 2, '>')
    ensures Has(s, p, ">>>=") <==> At(s, p, '>') && At(s, p + 1, '>') && At(s, p + 2, '>') && At(s, p + 3, '=')
  {
    HasChars(s, p, ">>");
    HasChars(s, p, ">>=");
    HasChars(s, p, ">>>");
    if Has(s, p, ">>>=") {
      var w := s[p..p + 4];
      assert s[p] == w[0] && s[p + 1] == w[1] && s[p + 2] == w[2] && s[p + 3] == w[3];
    }
    if At(s, p, '>') && At(s, p + 1, '>') && At(s, p + 2, '>') && At(s, p + 3, '=') { assert s[p..p + 4] == ">>>="; }
  }

  /** What follows a `>`: a token of its own, adjacent, exactly when the next character is another. */
  lemma AfterGreater(u: Unicode, keep: bool, s: string, toks: seq<Token>, k: nat)
    requires Tiled(u, keep, s, toks) && k < |toks| - 1 && toks[k].kind == OP(">")
    ensures var p := toks[k].pos;
            && At(s, p, '>') && !At(s, p + 1, '=') && toks[k].end == p + 1
            && (toks[k + 1].adjacent <==> toks[k + 1].pos == p + 1)
            && (At(s, p + 1, '>') <==> toks[k + 1].adjacent && (toks[k + 1].kind == OP(">") || toks[k + 1].kind == OP(">=")))
            && (At(s, p + 1, '>') ==> k + 1 < |toks| - 1 && (toks[k + 1].kind == OP(">=") <==> At(s, p + 2, '=')))
  {
    hide Gap, HasNewline, Spelled, CommentStart;
    var p := toks[k].pos;
    assert TokenOk(u, keep, s, toks, k);
    GreaterIs(u, s, p, toks[k].end);
    var t := toks[k + 1];
    assert toks[..k + 1][|toks[..k + 1]| - 1] == toks[k];
    if k + 1 < |toks| - 1 { assert TokenOk(u, keep, s, toks, k + 1); }
    if At(s, p + 1, '>') {
      if t.pos != p + 1 { GapOpens(keep, s, p + 1, t.pos); NoTrivia(s, p + 1); }
      GreaterStarts(u, s, t.kind, t.pos, t.end);
    } else if k + 1 < |toks| - 1 && (t.kind == OP(">") || t.kind == OP(">=")) {
      OpStarts(u, s, t.kind, t.pos, t.end);
    }
  }

  lemma GapOpens(keep: bool, s: string, i: nat, n: nat)
    requires i < n <= |s| && Gap(keep, s, i, n)
    ensures White(s[i]) || CommentStart(s, i)
  {
  }

  lemma NoTrivia(s: string, i: nat)
    requires At(s, i, '>')
    ensures !White(s[i]) && !CommentStart(s, i)
  {
  }

  lemma GreaterIs(u: Unicode, s: string, i: nat, n: nat)
    requires Spelled(u, s, OP(">"), i, n)
    ensures At(s, i, '>') && !At(s, i + 1, '=') && n == i + 1
  {
    OpStarts(u, s, OP(">"), i, n);
  }

  lemma OpStarts(u: Unicode, s: string, k: Kind, i: nat, n: nat)
    requires Spelled(u, s, k, i, n) && (k == OP(">") || k == OP(">="))
    ensures At(s, i, '>')
  {
    PunctStands(s, i);
    assert s[i] == s[i..i + |k.text|][0];
  }

  lemma GreaterStarts(u: Unicode, s: string, k: Kind, i: nat, n: nat)
    requires Spelled(u, s, k, i, n) && s[i] == '>'
    ensures k == if At(s, i + 1, '=') then OP(">=") else OP(">")
  {
    StartDecides(u, s, k, i, n);
  }

  /** Rejoining tokens from a `>` finds the longest shift operator spelled at it, and none when none is. */
  lemma JoinExactly(u: Unicode, keep: bool, s: string, toks: seq<Token>, k: nat)
    requires Tiled(u, keep, s, toks) && k < |toks| && toks[k].kind == OP(">")
    ensures P.Join(Parsed(toks)[k..]) == LongestShift(s, toks[k].pos)
  {
    hide Tiled, Has;
    NotLast(u, keep, s, toks, k);
    ShiftChars(s, toks[k].pos);
    AfterGreater(u, keep, s, toks, k);
    var ps := Parsed(toks)[k..];
    assert ps[0] == AsParsed(toks[k]) && ps[1] == AsParsed(toks[k + 1]);
    if toks[k + 1].adjacent && toks[k + 1].kind == OP(">") {
      AfterGreater(u, keep, s, toks, k + 1);
      assert ps[2] == AsParsed(toks[k + 2]);
    }
  }

  lemma NotLast(u: Unicode, keep: bool, s: string, toks: seq<Token>, k: nat)
    requires Tiled(u, keep, s, toks) && k < |toks| && toks[k].kind != EOF
    ensures k < |toks| - 1
  {
  }
}
