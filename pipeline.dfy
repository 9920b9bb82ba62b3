/**
 * The front end's pipeline (lib.rs): lex the source text, drop the
 * character spans, parse the tokens as a program or a compound, and map a
 * parse error's token range back to characters for the report.
 *
 * Reports are printed and the process exits with status 1 on an error in
 * `lex_and_parse_span`, `lex_and_parse` and `lex_and_parse_compound`; the
 * model records that exit as `Exit(1)`. `lex_and_parse_safe` returns the
 * error value instead.
 *
 * The program grammar is applied with the rule terminator as a parameter:
 * parser.rs ends rules with `Dot` (`Grammar.RuleEnd`), the lexer ends them
 * with `EndRule`. As written, no lexed input that holds a rule parses
 * (`AsWrittenAcceptsNoRules`); with `EndRule` the text of every well-formed
 * program reads back (`TextRoundTrip`).
 */
module Pipeline {
  import opened Wrappers
  import opened Tokens
  import opened Ast
  import opened Lexer
  import opened LexerFacts
  import opened Grammar
  import opened Printer
  import opened RuleFacts
  import opened ParserFacts

  /** What a run that may end the process gives: a value, or an exit status. */
  datatype Run<T> = Finished(value: T) | Exit(status: int)

  /** The message `lex_and_parse_safe` fails with, for lexing and parsing errors alike. */
  const FailedToParse: string := "Failed to parse"

  // ------------------------------------------------------------ spans

  /** The tokens handed to the parser: the lexed tokens without their spans, in order. */
  function StripSpans(spanned: seq<Spanned>): (toks: seq<Token>)
    ensures |toks| == |spanned|
    ensures forall k :: 0 <= k < |spanned| ==> toks[k] == spanned[k].token
  {
    if |spanned| == 0 then [] else [spanned[0].token] + StripSpans(spanned[1..])
  }

  /** Each span is non-empty and ends no later than the next one starts. */
  predicate SpansOrdered(spanned: seq<Spanned>)
  {
    (forall k :: 0 <= k < |spanned| ==> spanned[k].span.start < spanned[k].span.end)
    && (forall k :: 0 < k < |spanned| ==> spanned[k - 1].span.end <= spanned[k].span.start)
  }

  /** Every span lies within `lo..hi`. */
  predicate SpansWithin(spanned: seq<Spanned>, lo: nat, hi: nat)
  {
    forall k :: 0 <= k < |spanned| ==> lo <= spanned[k].span.start && spanned[k].span.end <= hi
  }

  /**
   * The character range of a parse error that covers tokens
   * `tokStart..tokEnd`: from the start of the first token (0 when there is
   * none) to the end of the last one (the start again when the range is
   * empty or the last token does not exist).
   */
  function ErrorCharSpan(spanned: seq<Spanned>, tokStart: nat, tokEnd: nat): (r: Span)
    ensures tokStart < |spanned| ==> r.start == spanned[tokStart].span.start
    ensures tokStart >= |spanned| ==> r.start == 0
    ensures tokEnd == 0 || tokEnd > |spanned| ==> r.end == r.start
    ensures 0 < tokEnd <= |spanned| ==> r.end == spanned[tokEnd - 1].span.end
  {
    var start := if tokStart < |spanned| then spanned[tokStart].span.start else 0;
    var end :=
      if tokEnd == 0 then start
      else if tokEnd - 1 < |spanned| then spanned[tokEnd - 1].span.end
      else start;
    Span(start, end)
  }

  /** In ordered spans, a later token starts no earlier than an earlier one ends. */
  lemma {:induction false} OrderedApart(spanned: seq<Spanned>, i: nat, j: nat)
    requires SpansOrdered(spanned) && i < j < |spanned|
    ensures spanned[i].span.end <= spanned[j].span.start
    decreases j - i
  {
    if i + 1 < j {
      OrderedApart(spanned, i, j - 1);
      assert spanned[j - 1].span.start < spanned[j - 1].span.end;
    }
  }

  /**
   * Over ordered spans, the character range of a non-empty token range
   * covers the text of every token in it and nothing before the first.
   */
  lemma ErrorSpanCovers(spanned: seq<Spanned>, tokStart: nat, tokEnd: nat)
    requires SpansOrdered(spanned) && tokStart < tokEnd <= |spanned|
    ensures var r := ErrorCharSpan(spanned, tokStart, tokEnd);
      r.start < r.end
      && forall k :: tokStart <= k < tokEnd ==>
           r.start <= spanned[k].span.start && spanned[k].span.end <= r.end
  {
    var r := ErrorCharSpan(spanned, tokStart, tokEnd);
    forall k | tokStart <= k < tokEnd
      ensures r.start <= spanned[k].span.start && spanned[k].span.end <= r.end
    {
      if tokStart < k {
        OrderedApart(spanned, tokStart, k);
      }
      if k < tokEnd - 1 {
        OrderedApart(spanned, k, tokEnd - 1);
      }
    }
    if tokStart < tokEnd - 1 {
      OrderedApart(spanned, tokStart, tokEnd - 1);
    }
  }

  // ------------------------------------------------- the lexer's spans

  lemma {:induction false} RecoverSpan(s: string, k: nat)
    requires k <= |s|
    ensures var r := Recover(s, k);
      r.Some? ==> k < r.value.0.span.start < r.value.0.span.end <= r.value.1
    decreases |s| - k
  {
    if k < |s| && Step(s, k + 1).None? {
      RecoverSpan(s, k + 1);
    }
  }

  /** A span placed before ordered spans that lie after it keeps them ordered. */
  lemma ConsOrdered(t: Spanned, rest: seq<Spanned>, lo: nat, mid: nat, hi: nat)
    requires lo <= t.span.start < t.span.end <= mid
    requires SpansOrdered(rest) && SpansWithin(rest, mid, hi) && mid <= hi
    ensures SpansOrdered([t] + rest) && SpansWithin([t] + rest, lo, hi)
  {
  }

  /** The lexer's tokens from `q` on lie in order within `q..|s|`. */
  lemma {:induction false} LexFromSpans(s: string, q: nat)
    requires q <= |s|
    ensures SpansOrdered(LexFrom(s, q).tokens) && SpansWithin(LexFrom(s, q).tokens, q, |s|)
    decreases |s| - q
  {
    if q < |s| {
      var found := if Step(s, q).Some? then Step(s, q) else Recover(s, q);
      if found.Some? {
        var (t, next) := found.value;
        RecoverSpan(s, q);
        LexFromSpans(s, next);
        ConsOrdered(t, LexFrom(s, next).tokens, q, next, |s|);
      }
    }
  }

  /** Every token of a lexed text spans characters of that text, in order. */
  lemma LexSpansOrdered(s: string)
    ensures SpansOrdered(Lex(s).tokens) && SpansWithin(Lex(s).tokens, 0, |s|)
  {
    LexFromSpans(s, 0);
  }

  // -------------------------------------------------------- pipelines

  /**
   * `lex_and_parse_span`: a lexing error or a parse that does not read the
   * whole input ends the process; otherwise the program's rules, each with
   * the range of tokens it was read from.
   */
  function LexAndParseSpan(src: string, term: Token): (r: Run<seq<RuleSpan>>)
    ensures r.Exit? ==> r.status == 1
    ensures Lex(src).errors != [] ==> r.Exit?
    ensures r.Finished? ==> RulesTile(r.value, 0, |Lex(src).tokens|)
  {
    var lexed := Lex(src);
    if lexed.errors != [] then Exit(1)
    else
      var toks := StripSpans(lexed.tokens);
      RulesTiled(toks, 0, term);
      match ProgramOf(toks, term)
      case None => Exit(1)
      case Some(spans) => Finished(spans)
  }

  /** `lex_and_parse`: the rules of `lex_and_parse_span`, in order, without their spans. */
  function LexAndParse(src: string, term: Token): (r: Run<seq<Rule>>)
    ensures r.Finished? <==> LexAndParseSpan(src, term).Finished?
    ensures r.Finished? ==> (|r.value| == |LexAndParseSpan(src, term).value|
      && forall k :: 0 <= k < |r.value| ==> r.value[k] == LexAndParseSpan(src, term).value[k].rule)
  {
    match LexAndParseSpan(src, term)
    case Finished(spans) => Finished(Rules(spans))
    case Exit(status) => Exit(status)
  }

  /** `lex_and_parse_compound`: the compound the compound parser reads from the whole input. */
  function LexAndParseCompound(src: string, term: Token): (r: Run<Compound>)
    ensures r.Exit? ==> r.status == 1
    ensures Lex(src).errors != [] ==> r.Exit?
    ensures r.Finished? ==> (Lex(src).errors == [] && |Lex(src).tokens| > 0
      && Lex(src).tokens[0].token == LeftCBracket)
    ensures r.Finished? ==>
      ParseCompound(StripSpans(Lex(src).tokens), 0, term) == Done(r.value, |Lex(src).tokens|)
  {
    var lexed := Lex(src);
    if lexed.errors != [] then Exit(1)
    else
      match CompoundOf(StripSpans(lexed.tokens), term)
      case None => Exit(1)
      case Some(cp) => Finished(cp)
  }

  /** `lex_and_parse_safe`: the same outcome as an error value instead of an exit. */
  function LexAndParseSafe(src: string, term: Token): (r: Result<seq<Rule>, string>)
    ensures r.Err? ==> r.error == FailedToParse
  {
    var lexed := Lex(src);
    if lexed.errors != [] then Err(FailedToParse)
    else
      match ProgramOf(StripSpans(lexed.tokens), term)
      case None => Err(FailedToParse)
      case Some(spans) => Ok(Rules(spans))
  }

  /** The safe pipeline fails exactly when the exiting one exits, and otherwise gives the same rules. */
  lemma SafeAgrees(src: string, term: Token)
    ensures LexAndParseSafe(src, term).Ok? <==> LexAndParse(src, term).Finished?
    ensures LexAndParseSafe(src, term).Ok? ==> LexAndParseSafe(src, term).value == LexAndParse(src, term).value
  {
  }

  // ------------------------------------------------ rules tile the tokens

  /** Rule ranges that follow each other without gaps from `lo` to `hi`, each non-empty. */
  predicate RulesTile(spans: seq<RuleSpan>, lo: nat, hi: nat)
    decreases |spans|
  {
    if |spans| == 0 then lo == hi
    else spans[0].start == lo && lo < spans[0].end && RulesTile(spans[1..], spans[0].end, hi)
  }

  /** The rules read from `pos` cover the tokens from `pos` to where reading stops. */
  lemma {:induction false} RulesTiled(toks: seq<Token>, pos: nat, term: Token)
    requires pos <= |toks|
    ensures RulesTile(ParseRules(toks, pos, term).value, pos, ParseRules(toks, pos, term).next)
    decreases |toks| - pos
  {
    var r := ParseRule(toks, pos, term);
    if r.Done? {
      RulesTiled(toks, r.next, term);
      var rest := ParseRules(toks, r.next, term);
      assert ParseRules(toks, pos, term).value[1..] == rest.value;
    }
  }

  /** Rules read from `pos` that are not empty end with the terminator. */
  lemma {:induction false} RulesEndWithTerm(toks: seq<Token>, pos: nat, term: Token)
    requires pos <= |toks|
    ensures var r := ParseRules(toks, pos, term);
      |r.value| > 0 ==> pos < r.next && toks[r.next - 1] == term
    decreases |toks| - pos
  {
    var r := ParseRule(toks, pos, term);
    if r.Done? {
      RulesEndWithTerm(toks, r.next, term);
    }
  }

  // ------------------------------------------ the terminator as written

  /** From a position inside the text, the lexer yields a token or an error. */
  lemma LexFromProgress(s: string, q: nat)
    requires q < |s|
    ensures |LexFrom(s, q).tokens| > 0 || |LexFrom(s, q).errors| > 0
  {
  }

  /** A `.` that is read as `Dot` is one character long. */
  lemma DotTokenEnd(s: string, j: nat)
    requires DotFollowed(s, j)
    ensures TryToken(s, j) == Some((Dot, j + 1))
  {
  }

  /** A `Dot` is followed by more text, so a lexing without errors never ends with one. */
  lemma {:induction false} LastNotDotFrom(s: string, q: nat)
    requires q <= |s|
    ensures var r := LexFrom(s, q);
      r.errors == [] && |r.tokens| > 0 ==> r.tokens[|r.tokens| - 1].token != Dot
    decreases |s| - q
  {
    if q < |s| && Step(s, q).Some? {
      var (t, next) := Step(s, q).value;
      LastNotDotFrom(s, next);
      if t.token == Dot {
        var j := SkipTrivia(s, q);
        DotTokenEnd(s, j);
        assert next == SkipTrivia(s, j + 1) == j + 1;
        LexFromProgress(s, next);
      }
    }
  }

  /** The tokens of a lexing without errors never end with `Dot`. */
  lemma LexLastNotDot(s: string)
    ensures var r := Lex(s);
      r.errors == [] && |r.tokens| > 0 ==> StripSpans(r.tokens)[|r.tokens| - 1] != Dot
  {
    LastNotDotFrom(s, 0);
  }

  /**
   * As written, with parser.rs's `Dot` as the rule terminator, the
   * pipeline reads no rule from any text: the lexer writes a rule-final
   * `.` as `EndRule`, and emits `Dot` only before more text.
   */
  lemma AsWrittenAcceptsNoRules(src: string)
    ensures var r := LexAndParseSpan(src, RuleEnd);
      r.Finished? ==> r.value == []
  {
    var lexed := Lex(src);
    if lexed.errors == [] {
      var toks := StripSpans(lexed.tokens);
      var r := ParseRules(toks, 0, RuleEnd);
      RulesEndWithTerm(toks, 0, RuleEnd);
      LexLastNotDot(src);
      assert ProgramOf(toks, RuleEnd).Some? ==> r.next == |toks| && r.value == [];
    }
  }

  /** "c." as written: the lexer gives `c` and an end of rule, which the `Dot` grammar rejects. */
  lemma FactTextAsWritten()
    ensures Lex("c.") == Lexed([Spanned(Descriptor("c"), Span(0, 1)), Spanned(EndRule, Span(1, 2))], [])
    ensures LexAndParseSpan("c.", RuleEnd) == Exit(1)
  {
    var s := "c.";
    assert IdentEnd(s, 1) == 1;
    assert s[0..1] == "c";
    assert TryToken(s, 0) == Some((Descriptor("c"), 1));
    assert Step(s, 0) == Some((Spanned(Descriptor("c"), Span(0, 1)), 1));
    assert Step(s, 1) == Some((Spanned(EndRule, Span(1, 2)), 2));
    AsWrittenAcceptsNoRules(s);
  }

  // ------------------------------------------------ the corrected pipeline

  lemma {:induction false} StripRendered(toks: seq<Token>, q: nat)
    ensures StripSpans(RenderedSpans(toks, q)) == toks
    decreases |toks|
  {
    if |toks| > 0 {
      StripRendered(toks[1..], q + |Spell(toks[0])| + 1);
    }
  }

  /**
   * With `EndRule` as the terminator, the text of a well-formed program,
   * each token written out with a space after it, reads back as the same
   * rules.
   */
  lemma TextRoundTrip(rs: seq<Rule>)
    requires forall k :: 0 <= k < |rs| ==> RuleWF(rs[k])
    requires AllSpellable(PrintProgram(rs, EndRule))
    ensures LexAndParse(Render(PrintProgram(rs, EndRule)), EndRule) == Finished(rs)
    ensures LexAndParseSafe(Render(PrintProgram(rs, EndRule)), EndRule) == Ok(rs)
  {
    var toks := PrintProgram(rs, EndRule);
    LexRendered(toks);
    StripRendered(toks, 0);
    ProgramRoundTrip(rs, EndRule);
  }

  /** With `EndRule` as the terminator, the text of a well-formed compound reads back as it. */
  lemma CompoundTextRoundTrip(cp: Compound)
    requires CompoundWF(cp) && AllSpellable(PrintCompound(cp, EndRule))
    ensures LexAndParseCompound(Render(PrintCompound(cp, EndRule)), EndRule) == Finished(cp)
  {
    var toks := PrintCompound(cp, EndRule);
    LexRendered(toks);
    StripRendered(toks, 0);
    CompoundRoundTrip(cp, EndRule);
  }

  /** The tokens of "c." with the lexer's terminator: one fact rule. */
  lemma FactTokensParse()
    ensures ProgramOf([Descriptor("c"), EndRule], EndRule).Some?
    ensures Rules(ProgramOf([Descriptor("c"), EndRule], EndRule).value) == [Rule.Fact(FactRule(PrimVar("c")))]
  {
    var rs := [Rule.Fact(FactRule(PrimVar("c")))];
    assert PrintRules(rs, 1, EndRule) == [];
    assert PrintProgram(rs, EndRule) == [Descriptor("c"), EndRule];
    ProgramRoundTrip(rs, EndRule);
  }

  /** "c." with the lexer's terminator: the one fact rule it writes. */
  lemma FactTextCorrected()
    ensures LexAndParse("c.", EndRule) == Finished([Rule.Fact(FactRule(PrimVar("c")))])
  {
    FactTextAsWritten();
    assert StripSpans(Lex("c.").tokens) == [Descriptor("c"), EndRule];
    FactTokensParse();
  }
}
