/**
 * The CL0 lexer (crates/cl0_parser/src/lexer.rs) as a scanner over the
 * characters of the input.
 *
 * One step of the lexer skips whitespace and `%` comments, reads one token
 * and skips the whitespace and comments after it. Tokens are tried in a
 * fixed priority: the two-character operators, then `.` with its one
 * character of lookahead, then the one-character symbols, then numbers,
 * then identifiers and keywords. When a step fails the lexer records an
 * error and retries one character further on, until a step succeeds or the
 * input ends.
 */
module Lexer {
  import opened Wrappers
  import opened Tokens

  /** A half-open range of character positions. */
  datatype Span = Span(start: nat, end: nat)

  datatype Spanned = Spanned(token: Token, span: Span)

  /** The tokens read, in order, and the positions of the steps that failed. */
  datatype Lexed = Lexed(tokens: seq<Spanned>, errors: seq<nat>)

  predicate IsWhitespace(c: char)
  {
    c == ' ' || c == '\t' || c == '\n' || c == '\r' || c == '\U{000B}' || c == '\U{000C}'
  }

  predicate IsDigit(c: char)
  {
    '0' <= c <= '9'
  }

  predicate IsAlpha(c: char)
  {
    'a' <= c <= 'z' || 'A' <= c <= 'Z'
  }

  predicate IsAlphanumeric(c: char)
  {
    IsAlpha(c) || IsDigit(c)
  }

  predicate IsIdentStart(c: char)
  {
    IsAlpha(c) || c == '_'
  }

  predicate IsIdentChar(c: char)
  {
    IsAlphanumeric(c) || c == '_'
  }

  /** A non-empty identifier: a letter or `_`, then letters, digits or `_`. */
  predicate IsIdent(w: string)
  {
    |w| > 0 && IsIdentStart(w[0]) && forall k :: 0 < k < |w| ==> IsIdentChar(w[k])
  }

  /** The one-character symbols. */
  function SymbolToken(c: char): Option<Token>
  {
    match c
    case '#' => Some(Hash)
    case ':' => Some(Colon)
    case ';' => Some(Semicolon)
    case '+' => Some(Plus)
    case '-' => Some(Minus)
    case '(' => Some(LeftParenthesis)
    case ')' => Some(RightParenthesis)
    case '{' => Some(LeftCBracket)
    case '}' => Some(RightCBracket)
    case ',' => Some(Comma)
    case '@' => Some(At)
    case _ => None
  }

  /** The position of the first newline at or after `i`, or the end of input. */
  function LineEnd(s: string, i: nat): (k: nat)
    requires i <= |s|
    ensures i <= k <= |s|
    ensures k < |s| ==> s[k] == '\n'
    ensures forall m :: i <= m < k ==> s[m] != '\n'
    decreases |s| - i
  {
    if i == |s| || s[i] == '\n' then i else LineEnd(s, i + 1)
  }

  /** Skips any mixture of whitespace and `%` comments starting at `i`. */
  function SkipTrivia(s: string, i: nat): (k: nat)
    requires i <= |s|
    ensures i <= k <= |s|
    ensures k < |s| ==> !IsWhitespace(s[k]) && s[k] != '%'
    decreases |s| - i
  {
    if i == |s| then i
    else if IsWhitespace(s[i]) then SkipTrivia(s, i + 1)
    else if s[i] == '%' then SkipTrivia(s, LineEnd(s, i + 1))
    else i
  }

  /** The end of the run of identifier characters starting at `i`. */
  function IdentEnd(s: string, i: nat): (k: nat)
    requires i <= |s|
    ensures i <= k <= |s|
    ensures k < |s| ==> !IsIdentChar(s[k])
    ensures forall m :: i <= m < k ==> IsIdentChar(s[m])
    decreases |s| - i
  {
    if i < |s| && IsIdentChar(s[i]) then IdentEnd(s, i + 1) else i
  }

  /** The end of the run of decimal digits starting at `i`. */
  function DigitsEnd(s: string, i: nat): (k: nat)
    requires i <= |s|
    ensures i <= k <= |s|
    ensures k < |s| ==> !IsDigit(s[k])
    ensures forall m :: i <= m < k ==> IsDigit(s[m])
    decreases |s| - i
  {
    if i < |s| && IsDigit(s[i]) then DigitsEnd(s, i + 1) else i
  }

  function DigitValue(c: char): nat
    requires IsDigit(c)
  {
    c as nat - '0' as nat
  }

  /** The value of a string of decimal digits. */
  function DecimalValue(d: string): nat
    requires forall k :: 0 <= k < |d| ==> IsDigit(d[k])
  {
    if |d| == 0 then 0 else DecimalValue(d[..|d| - 1]) * 10 + DigitValue(d[|d| - 1])
  }

  /**
   * A decimal literal: `0` alone, or a non-zero digit followed by digits.
   * It becomes a number token only when its value fits in eight bits.
   */
  function NumberToken(s: string, j: nat): (r: Option<(Token, nat)>)
    requires j < |s| && IsDigit(s[j])
    ensures r.Some? ==> j < r.value.1 <= |s| && r.value.0.Number?
  {
    if s[j] == '0' then Some((Number(0), j + 1))
    else
      var e := DigitsEnd(s, j + 1);
      var v := DecimalValue(s[j..e]);
      if v < 256 then Some((Number(v), e)) else None
  }

  /** A `.` at `j` that is followed by a letter, a digit or `{`. */
  predicate DotFollowed(s: string, j: nat)
  {
    j + 1 < |s| && s[j] == '.' && (IsAlphanumeric(s[j + 1]) || s[j + 1] == '{')
  }

  /** Reads the token that starts exactly at `j`, in the lexer's priority order. */
  function TryToken(s: string, j: nat): (r: Option<(Token, nat)>)
    requires j <= |s|
    ensures r.Some? ==> j < r.value.1 <= |s|
    ensures r.Some? && j < |s| && s[j] == '.' ==> r.value.0 == (if DotFollowed(s, j) then Dot else EndRule)
    ensures r.Some? && r.value.0 == Dot ==> DotFollowed(s, j)
  {
    if j == |s| then None
    else if j + 1 < |s| && s[j] == '=' && s[j + 1] == '>' then Some((FatArrow, j + 2))
    else if j + 1 < |s| && s[j] == '-' && s[j + 1] == '>' then Some((ThinArrow, j + 2))
    else if j + 1 < |s| && s[j] == '-' && s[j + 1] == 'o' then Some((DashO, j + 2))
    else if s[j] == '.' then
      var dot := j + 1 < |s| && (IsAlphanumeric(s[j + 1]) || s[j + 1] == '{');
      Some((if dot then Dot else EndRule, j + 1))
    else if SymbolToken(s[j]).Some? then Some((SymbolToken(s[j]).value, j + 1))
    else if IsDigit(s[j]) then NumberToken(s, j)
    else if IsIdentStart(s[j]) then
      var e := IdentEnd(s, j + 1);
      Some((KeywordToken(s[j..e]), e))
    else None
  }

  /**
   * One step from `q`: leading trivia, a token, trailing trivia. Yields the
   * token with the span of its own text and the position of the next step.
   */
  function Step(s: string, q: nat): (r: Option<(Spanned, nat)>)
    requires q <= |s|
    ensures r.Some? ==> q < r.value.1 <= |s|
    ensures r.Some? ==> q <= r.value.0.span.start < r.value.0.span.end <= r.value.1
    ensures r.Some? && r.value.0.token == Dot ==> DotFollowed(s, r.value.0.span.start)
  {
    var j := SkipTrivia(s, q);
    match TryToken(s, j)
    case None => None
    case Some((t, e)) => Some((Spanned(t, Span(j, e)), SkipTrivia(s, e)))
  }

  /**
   * Error recovery after a failed step: skip one character at a time and
   * retry a whole step, giving up once the end of input is reached.
   */
  function Recover(s: string, k: nat): (r: Option<(Spanned, nat)>)
    requires k <= |s|
    ensures r.Some? ==> k < r.value.1 <= |s|
    ensures r.Some? && r.value.0.token == Dot ==> DotFollowed(s, r.value.0.span.start)
    decreases |s| - k
  {
    if k == |s| then None
    else
      match Step(s, k + 1)
      case Some(found) => Some(found)
      case None => Recover(s, k + 1)
  }

  /** Lexes from step position `q` to the end of input. */
  function LexFrom(s: string, q: nat): (r: Lexed)
    requires q <= |s|
    ensures forall k :: 0 <= k < |r.tokens| && r.tokens[k].token == Dot ==> DotFollowed(s, r.tokens[k].span.start)
    decreases |s| - q
  {
    if q == |s| then Lexed([], [])
    else
      match Step(s, q)
      case Some((t, next)) =>
        var rest := LexFrom(s, next);
        Lexed([t] + rest.tokens, rest.errors)
      case None =>
        match Recover(s, q)
        case Some((t, next)) =>
          var rest := LexFrom(s, next);
          Lexed([t] + rest.tokens, [q] + rest.errors)
        case None =>
          // nothing more can be read, and the input does not end here
          Lexed([], [q])
  }

  function Lex(s: string): Lexed
  {
    LexFrom(s, 0)
  }
}

/**
 * Properties of the lexer: the text each token is read from, keyword and
 * operator priority, numbers, comments, and a round trip from a token
 * sequence through its rendered text back to the same tokens and spans.
 */
module LexerFacts {
  import opened Wrappers
  import opened Tokens
  import opened Lexer

  /** The source text a token is read from. */
  function Spell(t: Token): (w: string)
    ensures |w| > 0
  {
    match t
    case Descriptor(name) => if |name| > 0 then name else "_"
    case Number(v) => Decimal(v)
    case _ => Display(t)
  }

  /**
   * Tokens that are read back from their spelling when a separator
   * follows: a `.` before whitespace is always an end of rule, so `Dot` is
   * excluded, and a descriptor must be an identifier that is not a keyword.
   */
  predicate Spellable(t: Token)
  {
    !t.Dot? && (t.Descriptor? ==> IsIdent(t.name) && KeywordToken(t.name) == t)
  }

  /** Every token of the sequence is spellable. */
  predicate AllSpellable(toks: seq<Token>)
  {
    |toks| == 0 || (Spellable(toks[0]) && AllSpellable(toks[1..]))
  }

  predicate IsSeparator(c: char)
  {
    IsWhitespace(c) || c == '%'
  }

  /** Each token's text followed by one space. */
  function Render(toks: seq<Token>): (s: string)
  {
    if |toks| == 0 then [] else Spell(toks[0]) + " " + Render(toks[1..])
  }

  /** The tokens of `toks` with the spans their text has in `Render(toks)`, from `q` on. */
  function RenderedSpans(toks: seq<Token>, q: nat): seq<Spanned>
  {
    if |toks| == 0 then []
    else
      [Spanned(toks[0], Span(q, q + |Spell(toks[0])|))] + RenderedSpans(toks[1..], q + |Spell(toks[0])| + 1)
  }

  lemma {:induction false} DecimalDigits(n: nat)
    ensures forall k :: 0 <= k < |Decimal(n)| ==> IsDigit(Decimal(n)[k])
    ensures n > 0 ==> Decimal(n)[0] != '0'
    ensures n == 0 ==> Decimal(n) == "0"
    ensures DecimalValue(Decimal(n)) == n
    decreases n
  {
    if n >= 10 {
      DecimalDigits(n / 10);
      var d := Decimal(n);
      assert d[..|d| - 1] == Decimal(n / 10);
    }
  }

  lemma {:induction false} IdentEndAt(s: string, i: nat, e: nat)
    requires i <= e <= |s|
    requires forall m :: i <= m < e ==> IsIdentChar(s[m])
    requires e < |s| ==> !IsIdentChar(s[e])
    ensures IdentEnd(s, i) == e
    decreases e - i
  {
    if i < e {
      IdentEndAt(s, i + 1, e);
    }
  }

  lemma {:induction false} DigitsEndAt(s: string, i: nat, e: nat)
    requires i <= e <= |s|
    requires forall m :: i <= m < e ==> IsDigit(s[m])
    requires e < |s| ==> !IsDigit(s[e])
    ensures DigitsEnd(s, i) == e
    decreases e - i
  {
    if i < e {
      DigitsEndAt(s, i + 1, e);
    }
  }

  /** A spellable token's text never starts with whitespace or `%`. */
  lemma SpellStart(t: Token)
    requires Spellable(t)
    ensures !IsSeparator(Spell(t)[0])
  {
    if t.Number? {
      DecimalDigits(t.value);
    }
  }

  /** An identifier followed by a separator or the end of input is read as one word. */
  lemma WordAt(s: string, j: nat, w: string)
    requires IsIdent(w)
    requires j + |w| <= |s| && s[j..j + |w|] == w
    requires j + |w| < |s| ==> IsSeparator(s[j + |w|])
    ensures TryToken(s, j) == Some((KeywordToken(w), j + |w|))
  {
    var e := j + |w|;
    assert s[j] == w[0];
    assert forall m :: j + 1 <= m < e ==> s[m] == w[m - j];
    IdentEndAt(s, j + 1, e);
  }

  /** The decimal spelling of an eight-bit value followed by a separator is read as that number. */
  lemma NumberAt(s: string, j: nat, v: Byte)
    requires j + |Decimal(v)| <= |s| && s[j..j + |Decimal(v)|] == Decimal(v)
    requires j + |Decimal(v)| < |s| ==> IsSeparator(s[j + |Decimal(v)|])
    ensures TryToken(s, j) == Some((Number(v), j + |Decimal(v)|))
  {
    var w := Decimal(v);
    var e := j + |w|;
    DecimalDigits(v);
    assert s[j] == w[0];
    if v > 0 {
      assert forall m :: j + 1 <= m < e ==> s[m] == w[m - j];
      DigitsEndAt(s, j + 1, e);
      assert s[j..e] == w;
    }
  }

  /** The keyword tokens are spelt as identifiers that map back to them. */
  lemma KeywordSpelling(t: Token)
    requires IsKeyword(t)
    ensures IsIdent(Spell(t)) && KeywordToken(Spell(t)) == t
  {
  }

  /** A symbol or operator token followed by a separator or the end of input is read as itself. */
  lemma PunctuationAt(s: string, j: nat, t: Token)
    requires Spellable(t) && !t.Descriptor? && !t.Number? && !IsKeyword(t)
    requires j + |Spell(t)| <= |s| && s[j..j + |Spell(t)|] == Spell(t)
    requires j + |Spell(t)| < |s| ==> IsSeparator(s[j + |Spell(t)|])
    ensures TryToken(s, j) == Some((t, j + |Spell(t)|))
  {
    var w := Spell(t);
    assert s[j] == w[0];
    if |w| == 2 {
      assert s[j + 1] == w[1];
    }
  }

  /**
   * Reading at `j`, where the text of a spellable token starts and is
   * followed by a separator or the end of input, yields exactly that token
   * and ends after its text.
   */
  lemma TokenAt(s: string, j: nat, t: Token)
    requires Spellable(t)
    requires j + |Spell(t)| <= |s| && s[j..j + |Spell(t)|] == Spell(t)
    requires j + |Spell(t)| < |s| ==> IsSeparator(s[j + |Spell(t)|])
    ensures TryToken(s, j) == Some((t, j + |Spell(t)|))
  {
    if t.Descriptor? {
      WordAt(s, j, t.name);
    } else if t.Number? {
      NumberAt(s, j, t.value);
    } else if IsKeyword(t) {
      KeywordSpelling(t);
      WordAt(s, j, Spell(t));
    } else {
      PunctuationAt(s, j, t);
    }
  }

  lemma {:induction false} RenderPrefix(toks: seq<Token>)
    requires |toks| > 0
    ensures Render(toks) == Spell(toks[0]) + " " + Render(toks[1..])
    ensures |Render(toks)| == |Spell(toks[0])| + 1 + |Render(toks[1..])|
  {
  }

  lemma RenderedSlices(s: string, q: nat, toks: seq<Token>)
    requires |toks| > 0
    requires q + |Render(toks)| == |s| && s[q..] == Render(toks)
    ensures q + |Spell(toks[0])| < |s|
    ensures s[q..q + |Spell(toks[0])|] == Spell(toks[0])
    ensures s[q + |Spell(toks[0])|] == ' '
    ensures s[q + |Spell(toks[0])| + 1..] == Render(toks[1..])
  {
    RenderPrefix(toks);
    var w := Spell(toks[0]);
    assert s[q..] == w + " " + Render(toks[1..]);
    assert s[q..][..|w|] == w;
    assert s[q..][|w| + 1..] == Render(toks[1..]);
  }

  lemma SkipNone(s: string, i: nat)
    requires i < |s| && !IsSeparator(s[i])
    ensures SkipTrivia(s, i) == i
  {
  }

  lemma SkipOneSpace(s: string, e: nat)
    requires e < |s| && s[e] == ' '
    requires e + 1 < |s| ==> !IsSeparator(s[e + 1])
    ensures SkipTrivia(s, e) == e + 1
  {
  }

  lemma StepOf(s: string, q: nat, t: Token, e: nat, next: nat)
    requires q <= |s| && SkipTrivia(s, q) == q
    requires TryToken(s, q) == Some((t, e))
    requires SkipTrivia(s, e) == next
    ensures Step(s, q) == Some((Spanned(t, Span(q, e)), next))
  {
  }

  /** One lexer step over rendered text reads the first token and the space after it. */
  lemma StepRendered(s: string, q: nat, toks: seq<Token>)
    requires |toks| > 0 && Spellable(toks[0]) && (|toks| > 1 ==> Spellable(toks[1]))
    requires q + |Render(toks)| == |s| && s[q..] == Render(toks)
    ensures Step(s, q) == Some((Spanned(toks[0], Span(q, q + |Spell(toks[0])|)), q + |Spell(toks[0])| + 1))
  {
    var t := toks[0];
    var e := q + |Spell(t)|;
    RenderedSlices(s, q, toks);
    assert SkipTrivia(s, q) == q by {
      SpellStart(t);
      assert s[q] == Spell(t)[0];
      SkipNone(s, q);
    }
    assert TryToken(s, q) == Some((t, e)) by {
      TokenAt(s, q, t);
    }
    assert SkipTrivia(s, e) == e + 1 by {
      if e + 1 < |s| {
        RenderedSlices(s, e + 1, toks[1..]);
        SpellStart(toks[1]);
        assert s[e + 1] == Spell(toks[1])[0];
      }
      SkipOneSpace(s, e);
    }
    StepOf(s, q, t, e, e + 1);
  }

  /** Lexing the rendered text of spellable tokens from position `q` gives them back with their spans. */
  lemma {:induction false} LexRenderedFrom(s: string, q: nat, toks: seq<Token>)
    requires AllSpellable(toks)
    requires q + |Render(toks)| == |s| && s[q..] == Render(toks)
    ensures LexFrom(s, q) == Lexed(RenderedSpans(toks, q), [])
    decreases |toks|
  {
    if |toks| > 0 {
      var next := q + |Spell(toks[0])| + 1;
      var first := Spanned(toks[0], Span(q, q + |Spell(toks[0])|));
      assert Step(s, q) == Some((first, next)) by {
        assert |toks| > 1 ==> toks[1..][0] == toks[1];
        StepRendered(s, q, toks);
      }
      assert next + |Render(toks[1..])| == |s| && s[next..] == Render(toks[1..]) by {
        RenderedSlices(s, q, toks);
        RenderPrefix(toks);
      }
      assert AllSpellable(toks[1..]);
      LexRenderedFrom(s, next, toks[1..]);
      assert RenderedSpans(toks, q) == [first] + RenderedSpans(toks[1..], next);
    } else {
      assert q == |s|;
    }
  }


  /**
   * Round trip: spellable tokens written out with a space after each are
   * lexed back to the same tokens, each spanning its own text, with no error.
   */
  lemma LexRendered(toks: seq<Token>)
    requires AllSpellable(toks)
    ensures Lex(Render(toks)) == Lexed(RenderedSpans(toks, 0), [])
  {
    LexRenderedFrom(Render(toks), 0, toks);
  }

  /**
   * The displayed text of every token other than a descriptor and `Dot` is
   * the text the lexer reads it from, and lexing that text on its own gives
   * exactly that token: the braces display as the single characters `{` and
   * `}`, and a `.` at the end of input is an end of rule.
   */
  lemma LexDisplay(t: Token)
    requires !t.Descriptor? && !t.Dot?
    ensures Display(t) == Spell(t)
    ensures Lex(Display(t)) == Lexed([Spanned(t, Span(0, |Display(t)|))], [])
  {
    var s := Display(t);
    assert s[0..|s|] == s;
    TokenAt(s, 0, t);
    SpellStart(t);
    assert SkipTrivia(s, 0) == 0;
    assert SkipTrivia(s, |s|) == |s|;
    assert Step(s, 0) == Some((Spanned(t, Span(0, |s|)), |s|));
    assert LexFrom(s, |s|) == Lexed([], []);
    assert [Spanned(t, Span(0, |s|))] + [] == [Spanned(t, Span(0, |s|))];
  }

  /** A decimal literal whose value does not fit in eight bits is a lexing error. */
  lemma NumberOutOfRange(n: nat)
    requires n >= 256
    ensures |Lex(Decimal(n)).errors| > 0 && Lex(Decimal(n)).errors[0] == 0
  {
    var s := Decimal(n);
    DecimalDigits(n);
    assert SkipTrivia(s, 0) == 0;
    DigitsEndAt(s, 1, |s|);
    assert s[0..|s|] == s;
    assert NumberToken(s, 0) == None;
    assert TryToken(s, 0) == None;
    assert Step(s, 0) == None;
  }

  /** A character that can begin neither trivia nor any token. */
  predicate StartsNothing(c: char)
  {
    !IsSeparator(c) && SymbolToken(c).None? && c != '=' && c != '.' && !IsDigit(c) && !IsIdentStart(c)
  }

  /**
   * A character that begins nothing is reported as an error and skipped:
   * lexing resumes with a whole step at the next character.
   */
  lemma SkipsUnlexable(s: string, q: nat)
    requires q + 1 < |s| && StartsNothing(s[q])
    requires Step(s, q + 1).Some?
    ensures LexFrom(s, q).errors == [q] + LexFrom(s, Step(s, q + 1).value.1).errors
    ensures LexFrom(s, q).tokens == [Step(s, q + 1).value.0] + LexFrom(s, Step(s, q + 1).value.1).tokens
  {
    assert SkipTrivia(s, q) == q;
    assert TryToken(s, q) == None;
  }

  lemma {:induction false} LineEndExtended(t: string, x: string, i: nat)
    requires i <= |t| && forall k :: 0 <= k < |x| ==> x[k] != '\n'
    ensures LineEnd(t, i) < |t| ==> LineEnd(t + x, i) == LineEnd(t, i)
    ensures LineEnd(t, i) == |t| ==> LineEnd(t + x, i) == |t + x|
    decreases |t| - i
  {
    if i < |t| && t[i] != '\n' {
      LineEndExtended(t, x, i + 1);
    } else if i == |t| {
      LineEndSuffix(t + x, i);
    }
  }

  lemma {:induction false} LineEndSuffix(s: string, i: nat)
    requires i <= |s| && forall k :: i <= k < |s| ==> s[k] != '\n'
    ensures LineEnd(s, i) == |s|
    decreases |s| - i
  {
    if i < |s| {
      LineEndSuffix(s, i + 1);
    }
  }

  /** A comment without a newline that ends the text. */
  predicate IsTrailingComment(x: string)
  {
    |x| > 0 && x[0] == '%' && forall k :: 0 <= k < |x| ==> x[k] != '\n'
  }

  lemma {:induction false} SkipTriviaExtended(t: string, x: string, i: nat)
    requires i <= |t| && IsTrailingComment(x)
    ensures SkipTrivia(t, i) < |t| ==> SkipTrivia(t + x, i) == SkipTrivia(t, i)
    ensures SkipTrivia(t, i) == |t| ==> SkipTrivia(t + x, i) == |t + x|
    decreases |t| - i
  {
    var s := t + x;
    if i == |t| {
      assert s[i] == '%';
      LineEndSuffix(s, i + 1);
    } else if IsWhitespace(t[i]) {
      SkipTriviaExtended(t, x, i + 1);
    } else if t[i] == '%' {
      LineEndExtended(t, x, i + 1);
      var k := LineEnd(t, i + 1);
      if k < |t| {
        SkipTriviaExtended(t, x, k);
      } else {
        assert SkipTrivia(s, i) == SkipTrivia(s, |s|);
      }
    }
  }

  lemma {:induction false} IdentEndExtended(t: string, x: string, i: nat)
    requires i <= |t| && IsTrailingComment(x)
    ensures IdentEnd(t + x, i) == IdentEnd(t, i)
    decreases |t| - i
  {
    if i < |t| && IsIdentChar(t[i]) {
      IdentEndExtended(t, x, i + 1);
    } else if i == |t| {
      assert (t + x)[i] == '%';
    }
  }

  lemma {:induction false} DigitsEndExtended(t: string, x: string, i: nat)
    requires i <= |t| && IsTrailingComment(x)
    ensures DigitsEnd(t + x, i) == DigitsEnd(t, i)
    decreases |t| - i
  {
    if i < |t| && IsDigit(t[i]) {
      DigitsEndExtended(t, x, i + 1);
    } else if i == |t| {
      assert (t + x)[i] == '%';
    }
  }

  /** The token read at `j` in terms of the character there, the one after it, and the longer reads. */
  lemma TryTokenShape(s: string, j: nat, c: char, next: Option<char>, num: Option<(Token, nat)>, e: nat, word: string)
    requires j < |s| && c == s[j] && next == (if j + 1 < |s| then Some(s[j + 1]) else None)
    requires IsDigit(c) ==> num == NumberToken(s, j)
    requires IsIdentStart(c) ==> e == IdentEnd(s, j + 1) && word == s[j..e]
    ensures TryToken(s, j)
      == if c == '=' && next == Some('>') then Some((FatArrow, j + 2))
         else if c == '-' && next == Some('>') then Some((ThinArrow, j + 2))
         else if c == '-' && next == Some('o') then Some((DashO, j + 2))
         else if c == '.' then
           Some((if next.Some? && (IsAlphanumeric(next.value) || next.value == '{') then Dot else EndRule, j + 1))
         else if SymbolToken(c).Some? then Some((SymbolToken(c).value, j + 1))
         else if IsDigit(c) then num
         else if IsIdentStart(c) then Some((KeywordToken(word), e))
         else None
  {
  }

  lemma NumberTokenExtended(t: string, x: string, j: nat)
    requires j < |t| && IsDigit(t[j]) && IsTrailingComment(x)
    ensures NumberToken(t + x, j) == NumberToken(t, j)
  {
    if t[j] != '0' {
      DigitsEndExtended(t, x, j + 1);
      var e := DigitsEnd(t, j + 1);
      assert (t + x)[j..e] == t[j..e];
    }
  }

  /** A `%` after the text does not change the token read at a position inside it. */
  lemma TryTokenExtended(t: string, x: string, j: nat)
    requires j < |t| && IsTrailingComment(x)
    ensures TryToken(t + x, j) == TryToken(t, j)
  {
    var s := t + x;
    var c := t[j];
    assert s[j] == c;
    var next := if j + 1 < |t| then Some(t[j + 1]) else None;
    var next' := if j + 1 < |s| then Some(s[j + 1]) else None;
    assert next' == if j + 1 < |t| then next else Some('%');
    var num := None;
    var e := 0;
    var word := [];
    if IsDigit(c) {
      NumberTokenExtended(t, x, j);
      num := NumberToken(t, j);
    }
    if IsIdentStart(c) {
      IdentEndExtended(t, x, j + 1);
      e := IdentEnd(t, j + 1);
      word := t[j..e];
      assert s[j..e] == word;
    }
    TryTokenShape(t, j, c, next, num, e, word);
    TryTokenShape(s, j, c, next', num, e, word);
  }

  lemma {:induction false} TrailingCommentFrom(t: string, x: string, q: nat)
    requires q < |t| && IsTrailingComment(x)
    requires LexFrom(t, q).errors == []
    ensures LexFrom(t + x, q) == LexFrom(t, q)
    decreases |t| - q
  {
    var s := t + x;
    var j := SkipTrivia(t, q);
    assert Step(t, q).Some?;
    assert j < |t|;
    SkipTriviaExtended(t, x, q);
    TryTokenExtended(t, x, j);
    var e := TryToken(t, j).value.1;
    SkipTriviaExtended(t, x, e);
    var next := SkipTrivia(t, e);
    if next < |t| {
      TrailingCommentFrom(t, x, next);
    } else {
      assert Step(s, q) == Some((Spanned(TryToken(t, j).value.0, Span(j, e)), |s|));
    }
  }

  /**
   * A comment at the end of a text that lexes without error adds no token
   * and no error, whatever symbols or words it contains.
   */
  lemma TrailingCommentIgnored(t: string, x: string)
    requires |t| > 0 && Lex(t).errors == []
    requires IsTrailingComment(x)
    ensures Lex(t + x) == Lex(t)
  {
    TrailingCommentFrom(t, x, 0);
  }
}
