/**
 * The condition and rule grammar reads back what the printer prints: for
 * every well-formed condition, atomic condition, compound, rule and
 * program, parsing the printed tokens gives the tree back, whichever of
 * the two terminators the rules are ended with.
 *
 * The lemmas carry the positions where each printed piece starts and ends
 * as parameters (`end == pos + |printed|`), so every fact about the token
 * sequence is stated at a named position.
 */
module RuleFacts {
  import opened Wrappers
  import opened Tokens
  import opened Ast
  import opened Grammar
  import opened Printer
  import opened GrammarFacts

  /** The tokens a rule can be ended with: `.` as parser.rs expects, or the lexer's end-of-rule. */
  predicate IsTerm(term: Token)
  {
    term == Dot || term == EndRule
  }

  // ------------------------------------------------------------ following

  /** What may follow a negation without extending it: a compound looks ahead for `as name`. */
  predicate UnaryFollow(toks: seq<Token>, p: nat)
  {
    p < |toks| ==> toks[p] != As
  }

  /** What may follow a conjunction: no `and` or `,` that would continue it. */
  predicate ConjFollow(toks: seq<Token>, p: nat)
  {
    p < |toks| ==> toks[p] !in {As, And, Comma}
  }

  /** What may follow a condition: no `or` or `;` that would continue it either. */
  predicate CondFollow(toks: seq<Token>, p: nat)
  {
    p < |toks| ==> toks[p] !in {As, And, Comma, Or, Semicolon}
  }

  /** What may follow a sequence of rules: nothing a rule starts with. */
  predicate RulesFollow(toks: seq<Token>, p: nat)
  {
    p < |toks| ==> !StartsRule(toks[p])
  }

  // -------------------------------------------------------- one-step facts

  lemma NegationStep(toks: seq<Token>, pos: nat, b: nat, term: Token)
    requires Grammar.At(toks, pos, Token.Not) && b == pos + 1
    ensures var r := ParseNegation(toks, b, term);
      ParseNegation(toks, pos, term) == if r.Done? then Done(Condition.Not(r.value), r.next) else Fail
  {
    var k := CountNots(toks, b);
    assert CountNots(toks, pos) == k + 1;
  }

  lemma NegationOfPrimary(toks: seq<Token>, pos: nat, term: Token, c: Condition, n: nat)
    requires pos <= |toks| && ParsePrimary(toks, pos, term) == Done(c, n)
    ensures ParseNegation(toks, pos, term) == Done(c, n)
  {
    assert CountNots(toks, pos) == 0;
  }

  /** The conjunction tail in terms of the parts it inspects. */
  lemma ConjunctionTailShape(toks: seq<Token>, pos: nat, term: Token,
                             sep: bool, c: Parsed<Condition>, rest: Parsed<seq<Condition>>)
    requires pos <= |toks| && sep == (pos < |toks| && (toks[pos] == And || toks[pos] == Comma))
    requires sep ==> c == ParseNegation(toks, pos + 1, term)
    requires sep && c.Done? ==> rest == ConjunctionTail(toks, c.next, term)
    ensures ConjunctionTail(toks, pos, term)
      == if sep && c.Done? then Done([c.value] + rest.value, rest.next) else Done([], pos)
  {
  }

  lemma ConjunctionTailStep(toks: seq<Token>, pos: nat, b: nat, cs: seq<Condition>, i: nat, n: nat, m: nat, term: Token)
    requires i < |cs| && b == pos + 1 && Grammar.At(toks, pos, And) && ParseNegation(toks, b, term) == Done(cs[i], n)
    requires ConjunctionTail(toks, n, term) == Done(cs[i + 1..], m)
    ensures ConjunctionTail(toks, pos, term) == Done(cs[i..], m)
  {
    ConjunctionTailShape(toks, pos, term, true, Done(cs[i], n), Done(cs[i + 1..], m));
    DropCons(cs, i);
  }

  lemma ConjunctionTailStop(toks: seq<Token>, pos: nat, term: Token)
    requires pos <= |toks| && ConjFollow(toks, pos)
    ensures ConjunctionTail(toks, pos, term) == Done([], pos)
  {
  }

  /** The disjunction tail in terms of the parts it inspects. */
  lemma DisjunctionTailShape(toks: seq<Token>, pos: nat, term: Token,
                             sep: bool, c: Parsed<Condition>, rest: Parsed<seq<Condition>>)
    requires pos <= |toks| && sep == (pos < |toks| && (toks[pos] == Or || toks[pos] == Semicolon))
    requires sep ==> c == ParseConjunction(toks, pos + 1, term)
    requires sep && c.Done? ==> rest == DisjunctionTail(toks, c.next, term)
    ensures DisjunctionTail(toks, pos, term)
      == if sep && c.Done? then Done([c.value] + rest.value, rest.next) else Done([], pos)
  {
  }

  lemma DisjunctionTailStep(toks: seq<Token>, pos: nat, b: nat, cs: seq<Condition>, i: nat, n: nat, m: nat, term: Token)
    requires i < |cs| && b == pos + 1 && Grammar.At(toks, pos, Or) && ParseConjunction(toks, b, term) == Done(cs[i], n)
    requires DisjunctionTail(toks, n, term) == Done(cs[i + 1..], m)
    ensures DisjunctionTail(toks, pos, term) == Done(cs[i..], m)
  {
    DisjunctionTailShape(toks, pos, term, true, Done(cs[i], n), Done(cs[i + 1..], m));
    DropCons(cs, i);
  }

  lemma DisjunctionTailStop(toks: seq<Token>, pos: nat, term: Token)
    requires pos <= |toks| && CondFollow(toks, pos)
    ensures DisjunctionTail(toks, pos, term) == Done([], pos)
  {
  }

  lemma DisjunctionFirst(toks: seq<Token>, pos: nat, cs: seq<Condition>, n: nat, m: nat, term: Token)
    requires |cs| >= 2 && pos <= |toks| && ParseConjunction(toks, pos, term) == Done(cs[0], n)
    requires DisjunctionTail(toks, n, term) == Done(cs[1..], m)
    ensures ParseCondition(toks, pos, term) == Done(Disjunction(cs), m)
  {
    DropCons(cs, 0);
    DropNone(cs);
  }

  lemma SingleDisjunct(toks: seq<Token>, pos: nat, c: Condition, n: nat, term: Token)
    requires pos <= |toks| && ParseConjunction(toks, pos, term) == Done(c, n) && CondFollow(toks, n)
    ensures ParseCondition(toks, pos, term) == Done(c, n)
  {
    DisjunctionTailStop(toks, n, term);
    assert [c] + [] == [c];
  }

  lemma ConjunctionFirst(toks: seq<Token>, pos: nat, cs: seq<Condition>, n: nat, m: nat, term: Token)
    requires |cs| >= 2 && pos <= |toks| && ParseNegation(toks, pos, term) == Done(cs[0], n)
    requires ConjunctionTail(toks, n, term) == Done(cs[1..], m)
    ensures ParseConjunction(toks, pos, term) == Done(Conjunction(cs), m)
  {
    DropCons(cs, 0);
    DropNone(cs);
  }

  lemma SingleConjunct(toks: seq<Token>, pos: nat, c: Condition, n: nat, term: Token)
    requires pos <= |toks| && ParseNegation(toks, pos, term) == Done(c, n) && ConjFollow(toks, n)
    ensures ParseConjunction(toks, pos, term) == Done(c, n)
  {
    ConjunctionTailStop(toks, n, term);
    assert [c] + [] == [c];
  }

  /** An atomic condition read as a whole condition, when nothing continues it. */
  lemma AtomicAsCondition(toks: seq<Token>, pos: nat, term: Token, ac: AtomicCondition, n: nat)
    requires pos <= |toks| && ParseAtomic(toks, pos, term) == Done(ac, n) && CondFollow(toks, n)
    ensures ParseCondition(toks, pos, term) == Done(Atomic(ac), n)
  {
    assert ParsePrimary(toks, pos, term) == Done(Atomic(ac), n);
    NegationOfPrimary(toks, pos, term, Atomic(ac), n);
    SingleConjunct(toks, pos, Atomic(ac), n, term);
    SingleDisjunct(toks, pos, Atomic(ac), n, term);
  }

  lemma RulesCons(s: RuleSpan, spans: seq<RuleSpan>)
    ensures Rules([s] + spans) == [s.rule] + Rules(spans)
  {
    assert ([s] + spans)[1..] == spans;
  }

  lemma DropCons<T>(s: seq<T>, i: nat)
    requires i < |s|
    ensures s[i..] == [s[i]] + s[i + 1..]
  {
  }

  lemma DropNone<T>(s: seq<T>)
    ensures s[0..] == s
  {
  }

  // ------------------------------------------------------------ conditions

  lemma DisjunctionSplit(toks: seq<Token>, pos: nat, c: Condition, term: Token, end: nat) returns (e: nat)
    requires c.Disjunction? && |c.disjuncts| >= 2
    requires end == pos + |PrintCondition(c, term)| && Has(toks, pos, PrintCondition(c, term))
    ensures e == pos + |PrintConjunction(c.disjuncts[0], term)| && end == e + |PrintOrRest(c.disjuncts, 1, term)|
    ensures Has(toks, pos, PrintConjunction(c.disjuncts[0], term)) && ConjFollow(toks, e)
    ensures Has(toks, e, PrintOrRest(c.disjuncts, 1, term))
  {
    var first := PrintConjunction(c.disjuncts[0], term);
    var rest := PrintOrRest(c.disjuncts, 1, term);
    e := pos + |first|;
    assert PrintCondition(c, term) == first + rest;
    HasSplit(toks, pos, first, rest);
    assert rest[0] == Or;
    HasFirst(toks, e, rest);
  }

  lemma OrRestSplit(toks: seq<Token>, pos: nat, cs: seq<Condition>, i: nat, term: Token, end: nat) returns (b: nat, e: nat)
    requires i < |cs| && end == pos + |PrintOrRest(cs, i, term)| && Has(toks, pos, PrintOrRest(cs, i, term))
    requires CondFollow(toks, end)
    ensures b == pos + 1 && e == b + |PrintConjunction(cs[i], term)| && end == e + |PrintOrRest(cs, i + 1, term)|
    ensures Grammar.At(toks, pos, Or) && Has(toks, b, PrintConjunction(cs[i], term)) && ConjFollow(toks, e)
    ensures Has(toks, e, PrintOrRest(cs, i + 1, term))
  {
    b := pos + 1;
    e := b + |PrintConjunction(cs[i], term)|;
    var rest := PrintOrRest(cs, i + 1, term);
    assert PrintOrRest(cs, i, term) == [Or] + PrintConjunction(cs[i], term) + rest;
    HasStep(toks, pos, Or, PrintConjunction(cs[i], term), rest);
    if i + 1 < |cs| {
      assert rest[0] == Or;
    }
  }

  lemma OrRestEnd(toks: seq<Token>, pos: nat, cs: seq<Condition>, term: Token, end: nat)
    requires pos <= |toks| && end == pos + |PrintOrRest(cs, |cs|, term)| && CondFollow(toks, end)
    ensures DisjunctionTail(toks, pos, term) == Done(cs[|cs|..], end)
  {
    assert PrintOrRest(cs, |cs|, term) == [];
    assert cs[|cs|..] == [];
    DisjunctionTailStop(toks, pos, term);
  }

  lemma ConjunctionSplit(toks: seq<Token>, pos: nat, c: Condition, term: Token, end: nat) returns (e: nat)
    requires c.Conjunction? && |c.conjuncts| >= 2
    requires end == pos + |PrintConjunction(c, term)| && Has(toks, pos, PrintConjunction(c, term))
    ensures e == pos + |PrintUnary(c.conjuncts[0], term)| && end == e + |PrintAndRest(c.conjuncts, 1, term)|
    ensures Has(toks, pos, PrintUnary(c.conjuncts[0], term)) && UnaryFollow(toks, e)
    ensures Has(toks, e, PrintAndRest(c.conjuncts, 1, term))
  {
    var first := PrintUnary(c.conjuncts[0], term);
    var rest := PrintAndRest(c.conjuncts, 1, term);
    e := pos + |first|;
    assert PrintConjunction(c, term) == first + rest;
    HasSplit(toks, pos, first, rest);
    assert rest[0] == And;
    HasFirst(toks, e, rest);
  }

  lemma AndRestSplit(toks: seq<Token>, pos: nat, cs: seq<Condition>, i: nat, term: Token, end: nat) returns (b: nat, e: nat)
    requires i < |cs| && end == pos + |PrintAndRest(cs, i, term)| && Has(toks, pos, PrintAndRest(cs, i, term))
    requires ConjFollow(toks, end)
    ensures b == pos + 1 && e == b + |PrintUnary(cs[i], term)| && end == e + |PrintAndRest(cs, i + 1, term)|
    ensures Grammar.At(toks, pos, And) && Has(toks, b, PrintUnary(cs[i], term)) && UnaryFollow(toks, e)
    ensures Has(toks, e, PrintAndRest(cs, i + 1, term))
  {
    b := pos + 1;
    e := b + |PrintUnary(cs[i], term)|;
    var rest := PrintAndRest(cs, i + 1, term);
    assert PrintAndRest(cs, i, term) == [And] + PrintUnary(cs[i], term) + rest;
    HasStep(toks, pos, And, PrintUnary(cs[i], term), rest);
    if i + 1 < |cs| {
      assert rest[0] == And;
    }
  }

  lemma AndRestEnd(toks: seq<Token>, pos: nat, cs: seq<Condition>, term: Token, end: nat)
    requires pos <= |toks| && end == pos + |PrintAndRest(cs, |cs|, term)| && ConjFollow(toks, end)
    ensures ConjunctionTail(toks, pos, term) == Done(cs[|cs|..], end)
  {
    assert PrintAndRest(cs, |cs|, term) == [];
    assert cs[|cs|..] == [];
    ConjunctionTailStop(toks, pos, term);
  }

  lemma NotSplit(toks: seq<Token>, pos: nat, c: Condition, term: Token, end: nat) returns (b: nat)
    requires c.Not? && end == pos + |PrintUnary(c, term)| && Has(toks, pos, PrintUnary(c, term))
    ensures b == pos + 1 && end == b + |PrintUnary(c.operand, term)|
    ensures Grammar.At(toks, pos, Token.Not) && Has(toks, b, PrintUnary(c.operand, term))
  {
    b := pos + 1;
    HasHead(toks, pos, Token.Not, PrintUnary(c.operand, term));
  }

  lemma ParenSplit(toks: seq<Token>, pos: nat, c: Condition, term: Token, end: nat) returns (b: nat, e: nat)
    requires c.Parentheses? && end == pos + |PrintUnary(c, term)| && Has(toks, pos, PrintUnary(c, term))
    ensures b == pos + 1 && e == b + |PrintCondition(c.inner, term)| && end == e + 1
    ensures Grammar.At(toks, pos, LeftParenthesis) && Has(toks, b, PrintCondition(c.inner, term))
    ensures Grammar.At(toks, e, RightParenthesis) && CondFollow(toks, e)
  {
    var inner := PrintCondition(c.inner, term);
    b := pos + 1;
    e := b + |inner|;
    HasStep(toks, pos, LeftParenthesis, inner, [RightParenthesis]);
  }

  lemma ParenAssemble(toks: seq<Token>, pos: nat, inner: Condition, b: nat, e: nat, end: nat, term: Token)
    requires b == pos + 1 && end == e + 1 && Grammar.At(toks, pos, LeftParenthesis)
    requires ParseCondition(toks, b, term) == Done(inner, e) && Grammar.At(toks, e, RightParenthesis)
    ensures ParsePrimary(toks, pos, term) == Done(Parentheses(inner), end)
  {
  }

  lemma PrimitiveRead(toks: seq<Token>, pos: nat, ac: AtomicCondition, term: Token, end: nat)
    requires ac.Primitive? && end == pos + |PrintAtomic(ac, term)| && Has(toks, pos, PrintAtomic(ac, term))
    ensures ParseAtomic(toks, pos, term) == Done(ac, end)
  {
    HasFirst(toks, pos, PrintAtomic(ac, term));
  }

  lemma {:induction false} ConditionPrinted(toks: seq<Token>, pos: nat, c: Condition, term: Token, end: nat)
    requires IsTerm(term) && ConditionWF(c)
    requires end == pos + |PrintCondition(c, term)| && Has(toks, pos, PrintCondition(c, term)) && CondFollow(toks, end)
    ensures ParseCondition(toks, pos, term) == Done(c, end)
    decreases c, 5, 0
  {
    if c.Disjunction? {
      var e := DisjunctionSplit(toks, pos, c, term, end);
      ConjunctionPrinted(toks, pos, c.disjuncts[0], term, e);
      OrRestPrinted(toks, e, c.disjuncts, 1, term, end);
      DisjunctionFirst(toks, pos, c.disjuncts, e, end, term);
    } else {
      assert PrintCondition(c, term) == PrintConjunction(c, term);
      ConjunctionPrinted(toks, pos, c, term, end);
      SingleDisjunct(toks, pos, c, end, term);
    }
  }

  /** The printed disjuncts `i..` are read back by the tail, which stops where they end. */
  /** One `or operand` step of the tail, then the rest. */
  lemma {:induction false} OrRestStepPrinted(toks: seq<Token>, pos: nat, cs: seq<Condition>, i: nat, term: Token, end: nat)
    requires IsTerm(term) && i < |cs|
    requires forall k :: 0 <= k < |cs| ==> ConjunctionWF(cs[k])
    requires end == pos + |PrintOrRest(cs, i, term)| && Has(toks, pos, PrintOrRest(cs, i, term)) && CondFollow(toks, end)
    ensures DisjunctionTail(toks, pos, term) == Done(cs[i..], end)
    decreases cs, 4, |cs| - i, 0
  {
    var b, e := OrRestSplit(toks, pos, cs, i, term, end);
    ConjunctionPrinted(toks, b, cs[i], term, e);
    OrRestPrinted(toks, e, cs, i + 1, term, end);
    DisjunctionTailStep(toks, pos, b, cs, i, e, end, term);
  }

  lemma {:induction false} OrRestPrinted(toks: seq<Token>, pos: nat, cs: seq<Condition>, i: nat, term: Token, end: nat)
    requires IsTerm(term) && i <= |cs|
    requires forall k :: 0 <= k < |cs| ==> ConjunctionWF(cs[k])
    requires end == pos + |PrintOrRest(cs, i, term)| && Has(toks, pos, PrintOrRest(cs, i, term)) && CondFollow(toks, end)
    ensures DisjunctionTail(toks, pos, term) == Done(cs[i..], end)
    decreases cs, 4, |cs| - i, 1
  {
    if i < |cs| {
      OrRestStepPrinted(toks, pos, cs, i, term, end);
    } else {
      OrRestEnd(toks, pos, cs, term, end);
    }
  }

  lemma {:induction false} ConjunctionPrinted(toks: seq<Token>, pos: nat, c: Condition, term: Token, end: nat)
    requires IsTerm(term) && ConjunctionWF(c)
    requires end == pos + |PrintConjunction(c, term)| && Has(toks, pos, PrintConjunction(c, term)) && ConjFollow(toks, end)
    ensures ParseConjunction(toks, pos, term) == Done(c, end)
    decreases c, 3, 0
  {
    if c.Conjunction? {
      var e := ConjunctionSplit(toks, pos, c, term, end);
      UnaryPrinted(toks, pos, c.conjuncts[0], term, e);
      AndRestPrinted(toks, e, c.conjuncts, 1, term, end);
      ConjunctionFirst(toks, pos, c.conjuncts, e, end, term);
    } else {
      assert PrintConjunction(c, term) == PrintUnary(c, term);
      UnaryPrinted(toks, pos, c, term, end);
      SingleConjunct(toks, pos, c, end, term);
    }
  }

  /** The printed conjuncts `i..` are read back by the tail, which stops where they end. */
  /** One `and operand` step of the tail, then the rest. */
  lemma {:induction false} AndRestStepPrinted(toks: seq<Token>, pos: nat, cs: seq<Condition>, i: nat, term: Token, end: nat)
    requires IsTerm(term) && i < |cs|
    requires forall k :: 0 <= k < |cs| ==> UnaryWF(cs[k])
    requires end == pos + |PrintAndRest(cs, i, term)| && Has(toks, pos, PrintAndRest(cs, i, term)) && ConjFollow(toks, end)
    ensures ConjunctionTail(toks, pos, term) == Done(cs[i..], end)
    decreases cs, 2, |cs| - i, 0
  {
    var b, e := AndRestSplit(toks, pos, cs, i, term, end);
    UnaryPrinted(toks, b, cs[i], term, e);
    AndRestPrinted(toks, e, cs, i + 1, term, end);
    ConjunctionTailStep(toks, pos, b, cs, i, e, end, term);
  }

  lemma {:induction false} AndRestPrinted(toks: seq<Token>, pos: nat, cs: seq<Condition>, i: nat, term: Token, end: nat)
    requires IsTerm(term) && i <= |cs|
    requires forall k :: 0 <= k < |cs| ==> UnaryWF(cs[k])
    requires end == pos + |PrintAndRest(cs, i, term)| && Has(toks, pos, PrintAndRest(cs, i, term)) && ConjFollow(toks, end)
    ensures ConjunctionTail(toks, pos, term) == Done(cs[i..], end)
    decreases cs, 2, |cs| - i, 1
  {
    if i < |cs| {
      AndRestStepPrinted(toks, pos, cs, i, term, end);
    } else {
      AndRestEnd(toks, pos, cs, term, end);
    }
  }

  lemma {:induction false} UnaryPrinted(toks: seq<Token>, pos: nat, c: Condition, term: Token, end: nat)
    requires IsTerm(term) && UnaryWF(c)
    requires end == pos + |PrintUnary(c, term)| && Has(toks, pos, PrintUnary(c, term)) && UnaryFollow(toks, end)
    ensures ParseNegation(toks, pos, term) == Done(c, end)
    decreases c, 1, 0
  {
    if c.Not? {
      var b := NotSplit(toks, pos, c, term, end);
      UnaryPrinted(toks, b, c.operand, term, end);
      NegationStep(toks, pos, b, term);
    } else {
      PrimaryPrinted(toks, pos, c, term, end);
      NegationOfPrimary(toks, pos, term, c, end);
    }
  }

  lemma {:induction false} PrimaryPrinted(toks: seq<Token>, pos: nat, c: Condition, term: Token, end: nat)
    requires IsTerm(term) && UnaryWF(c) && !c.Not?
    requires end == pos + |PrintUnary(c, term)| && Has(toks, pos, PrintUnary(c, term)) && UnaryFollow(toks, end)
    ensures ParsePrimary(toks, pos, term) == Done(c, end)
    decreases c, 0, 0
  {
    if c.Parentheses? {
      var b, e := ParenSplit(toks, pos, c, term, end);
      ConditionPrinted(toks, b, c.inner, term, e);
      ParenAssemble(toks, pos, c.inner, b, e, end, term);
    } else {
      AtomicPrinted(toks, pos, c.atomic, term, end);
    }
  }

  lemma {:induction false} AtomicPrinted(toks: seq<Token>, pos: nat, ac: AtomicCondition, term: Token, end: nat)
    requires IsTerm(term) && AtomicWF(ac)
    requires end == pos + |PrintAtomic(ac, term)| && Has(toks, pos, PrintAtomic(ac, term)) && UnaryFollow(toks, end)
    ensures ParseAtomic(toks, pos, term) == Done(ac, end)
    decreases ac, 1, 0
  {
    if ac.Primitive? {
      PrimitiveRead(toks, pos, ac, term, end);
    } else {
      CompoundPrinted(toks, pos, ac.compound, term, end);
    }
  }

  // ------------------------------------------------------------- compounds

  lemma CompoundSplit(toks: seq<Token>, pos: nat, cp: Compound, term: Token, end: nat) returns (b: nat, close: nat)
    requires end == pos + |PrintCompound(cp, term)| && Has(toks, pos, PrintCompound(cp, term))
    ensures b == pos + 1 && close == b + |PrintRules(cp.rules, 0, term)| && end == close + 1 + |PrintAlias(cp.alias)|
    ensures Grammar.At(toks, pos, LeftCBracket) && Has(toks, b, PrintRules(cp.rules, 0, term))
    ensures Grammar.At(toks, close, RightCBracket) && RulesFollow(toks, close)
    ensures Has(toks, close + 1, PrintAlias(cp.alias))
  {
    var body := PrintRules(cp.rules, 0, term);
    b := pos + 1;
    close := b + |body|;
    HasSplit(toks, pos, [LeftCBracket] + body + [RightCBracket], PrintAlias(cp.alias));
    HasStep(toks, pos, LeftCBracket, body, [RightCBracket]);
  }

  lemma CompoundAssemble(toks: seq<Token>, pos: nat, cp: Compound, b: nat, close: nat, end: nat, term: Token)
    requires b == pos + 1 && Grammar.At(toks, pos, LeftCBracket)
    requires ParseRules(toks, b, term).next == close && Rules(ParseRules(toks, b, term).value) == cp.rules[0..]
    requires Grammar.At(toks, close, RightCBracket) && Has(toks, close + 1, PrintAlias(cp.alias))
    requires end == close + 1 + |PrintAlias(cp.alias)| && UnaryFollow(toks, end)
    ensures ParseCompound(toks, pos, term) == Done(cp, end)
  {
    DropNone(cp.rules);
    if cp.alias.Some? {
      HasHead(toks, close + 1, As, [Descriptor(cp.alias.value)]);
      HasFirst(toks, close + 2, [Descriptor(cp.alias.value)]);
    }
  }

  lemma CompoundAsAtomic(toks: seq<Token>, pos: nat, cp: Compound, end: nat, term: Token)
    requires pos <= |toks| && ParseCompound(toks, pos, term) == Done(cp, end)
    ensures ParseAtomic(toks, pos, term) == Done(AtomicCondition.Compound(cp), end)
  {
  }

  lemma {:induction false} CompoundPrinted(toks: seq<Token>, pos: nat, cp: Compound, term: Token, end: nat)
    requires IsTerm(term) && CompoundWF(cp)
    requires end == pos + |PrintCompound(cp, term)| && Has(toks, pos, PrintCompound(cp, term)) && UnaryFollow(toks, end)
    ensures ParseAtomic(toks, pos, term) == Done(AtomicCondition.Compound(cp), end)
    decreases cp, 0, 0
  {
    var b, close := CompoundSplit(toks, pos, cp, term, end);
    RulesPrinted(toks, b, cp.rules, 0, term, close);
    CompoundAssemble(toks, pos, cp, b, close, end, term);
    CompoundAsAtomic(toks, pos, cp, end, term);
  }

  // ------------------------------------------------------------------ rules

  lemma RulesSplit(toks: seq<Token>, pos: nat, rs: seq<Rule>, i: nat, term: Token, end: nat) returns (e: nat)
    requires i < |rs| && end == pos + |PrintRules(rs, i, term)| && Has(toks, pos, PrintRules(rs, i, term))
    ensures e == pos + |PrintRule(rs[i], term)| && end == e + |PrintRules(rs, i + 1, term)|
    ensures Has(toks, pos, PrintRule(rs[i], term)) && Has(toks, e, PrintRules(rs, i + 1, term))
  {
    e := pos + |PrintRule(rs[i], term)|;
    HasSplit(toks, pos, PrintRule(rs[i], term), PrintRules(rs, i + 1, term));
  }

  lemma RulesStep(toks: seq<Token>, pos: nat, rs: seq<Rule>, i: nat, e: nat, end: nat, term: Token)
    requires i < |rs| && pos <= |toks| && ParseRule(toks, pos, term) == Done(rs[i], e)
    requires ParseRules(toks, e, term).next == end && Rules(ParseRules(toks, e, term).value) == rs[i + 1..]
    ensures ParseRules(toks, pos, term).next == end && Rules(ParseRules(toks, pos, term).value) == rs[i..]
  {
    var tail := ParseRules(toks, e, term);
    assert ParseRules(toks, pos, term) == Done([RuleSpan(rs[i], pos, e)] + tail.value, tail.next);
    RulesCons(RuleSpan(rs[i], pos, e), tail.value);
    DropCons(rs, i);
  }

  lemma RulesEnd(toks: seq<Token>, pos: nat, rs: seq<Rule>, term: Token, end: nat)
    requires pos <= |toks| && end == pos + |PrintRules(rs, |rs|, term)| && RulesFollow(toks, end)
    ensures ParseRules(toks, pos, term).next == end && Rules(ParseRules(toks, pos, term).value) == rs[|rs|..]
  {
    assert PrintRules(rs, |rs|, term) == [];
    assert ParseRule(toks, pos, term).Fail?;
  }

  /** The printed rules `i..` are read back, and reading stops where they end. */
  lemma {:induction false} RulesPrinted(toks: seq<Token>, pos: nat, rs: seq<Rule>, i: nat, term: Token, end: nat)
    requires IsTerm(term) && i <= |rs|
    requires forall k :: 0 <= k < |rs| ==> RuleWF(rs[k])
    requires end == pos + |PrintRules(rs, i, term)| && Has(toks, pos, PrintRules(rs, i, term)) && RulesFollow(toks, end)
    ensures ParseRules(toks, pos, term).next == end && Rules(ParseRules(toks, pos, term).value) == rs[i..]
    decreases rs, 0, |rs| - i
  {
    if i < |rs| {
      var e := RulesSplit(toks, pos, rs, i, term, end);
      RulePrinted(toks, pos, rs[i], term, e);
      RulesPrinted(toks, e, rs, i + 1, term, end);
      RulesStep(toks, pos, rs, i, e, end, term);
    } else {
      RulesEnd(toks, pos, rs, term, end);
    }
  }

  lemma {:induction false} RulePrinted(toks: seq<Token>, pos: nat, r: Rule, term: Token, end: nat)
    requires IsTerm(term) && RuleWF(r) && end == pos + |PrintRule(r, term)| && Has(toks, pos, PrintRule(r, term))
    ensures ParseRule(toks, pos, term) == Done(r, end)
    decreases r, 1, 0
  {
    match r
    case Reactive(ECA(e, g, a)) => EcaPrinted(toks, pos, r, term, end);
    case Reactive(CA(c, a)) => CaPrinted(toks, pos, r, term, end);
    case Declarative(CC(p, atom)) => CcPrinted(toks, pos, r, term, end);
    case Declarative(CT(p, c)) => CtPrinted(toks, pos, r, term, end);
    case Case(CaseRule(a)) => CasePrinted(toks, pos, r, term, end);
    case Fact(FactRule(atom)) => FactPrinted(toks, pos, r, term, end);
  }

  lemma GuardSplit(toks: seq<Token>, pos: nat, g: Option<Condition>, term: Token, end: nat) returns (b: nat)
    requires g.Some? && end == pos + |PrintGuard(g, term)| && Has(toks, pos, PrintGuard(g, term))
    ensures b == pos + 1 && end == b + |PrintCondition(g.value, term)|
    ensures Grammar.At(toks, pos, Colon) && Has(toks, b, PrintCondition(g.value, term))
  {
    b := pos + 1;
    HasHead(toks, pos, Colon, PrintCondition(g.value, term));
  }

  lemma {:induction false} GuardPrinted(toks: seq<Token>, pos: nat, g: Option<Condition>, term: Token, end: nat)
    requires IsTerm(term) && PremiseWF(g)
    requires end == pos + |PrintGuard(g, term)| && Has(toks, pos, PrintGuard(g, term)) && Grammar.At(toks, end, FatArrow)
    ensures ParseGuard(toks, pos, term) == (g, end)
    decreases g, 0, 0
  {
    if g.Some? {
      var b := GuardSplit(toks, pos, g, term, end);
      ConditionPrinted(toks, b, g.value, term, end);
    }
  }

  /** The premise of a declarative rule, when the token after it is `after`. */
  lemma {:induction false} PremisePrinted(toks: seq<Token>, pos: nat, p: Option<Condition>, term: Token, after: Token, end: nat)
    requires IsTerm(term) && PremiseWF(p)
    requires end == pos + |PrintPremise(p, term)| && Has(toks, pos, PrintPremise(p, term))
    requires after !in {As, And, Comma, Or, Semicolon} && !StartsCondition(after) && Grammar.At(toks, end, after)
    ensures ParsePremise(toks, pos, term) == (p, end)
    decreases p, 0, 0
  {
    if p.Some? {
      ConditionPrinted(toks, pos, p.value, term, end);
    }
  }

  lemma {:induction false} EcaPrinted(toks: seq<Token>, pos: nat, r: Rule, term: Token, end: nat)
    requires IsTerm(term) && r.Reactive? && r.reactive.ECA? && RuleWF(r)
    requires end == pos + |PrintRule(r, term)| && Has(toks, pos, PrintRule(r, term))
    ensures ParseRule(toks, pos, term) == Done(r, end)
    decreases r, 0, 0
  {
    var ECA(e, g, a) := r.reactive;
    var p1, p2, p3, p4 := EcaSplit(toks, pos, e, g, a, term, end);
    GuardPrinted(toks, p1, g, term, p2);
    EcaAssemble(toks, pos, e, g, a, p1, p2, p3, p4, end, term);
  }

  lemma {:induction false} CaPrinted(toks: seq<Token>, pos: nat, r: Rule, term: Token, end: nat)
    requires IsTerm(term) && r.Reactive? && r.reactive.CA? && RuleWF(r)
    requires end == pos + |PrintRule(r, term)| && Has(toks, pos, PrintRule(r, term))
    ensures ParseRule(toks, pos, term) == Done(r, end)
    decreases r, 0, 0
  {
    var CA(c, a) := r.reactive;
    var p1, p2, p3, p4 := CaSplit(toks, pos, c, a, term, end);
    ConditionPrinted(toks, p1, c, term, p2);
    CaAssemble(toks, pos, c, a, p1, p2, p3, p4, end, term);
  }

  lemma {:induction false} CcPrinted(toks: seq<Token>, pos: nat, r: Rule, term: Token, end: nat)
    requires IsTerm(term) && r.Declarative? && r.declarative.CC? && RuleWF(r)
    requires end == pos + |PrintRule(r, term)| && Has(toks, pos, PrintRule(r, term))
    ensures ParseRule(toks, pos, term) == Done(r, end)
    decreases r, 0, 0
  {
    var CC(p, atom) := r.declarative;
    var q, a, t := CcSplit(toks, pos, p, atom, term, end);
    PremisePrinted(toks, pos, p, term, ThinArrow, q);
    AtomicPrinted(toks, a, atom, term, t);
    CcAssemble(toks, pos, p, atom, q, a, t, end, term);
  }

  lemma {:induction false} CtPrinted(toks: seq<Token>, pos: nat, r: Rule, term: Token, end: nat)
    requires IsTerm(term) && r.Declarative? && r.declarative.CT? && RuleWF(r)
    requires end == pos + |PrintRule(r, term)| && Has(toks, pos, PrintRule(r, term))
    ensures ParseRule(toks, pos, term) == Done(r, end)
    decreases r, 0, 0
  {
    var CT(p, c) := r.declarative;
    var q, a, t := CtSplit(toks, pos, p, c, term, end);
    PremisePrinted(toks, pos, p, term, DashO, q);
    ConditionPrinted(toks, a, c, term, t);
    CtAssemble(toks, pos, p, c, q, a, t, end, term);
  }

  lemma CasePrinted(toks: seq<Token>, pos: nat, r: Rule, term: Token, end: nat)
    requires IsTerm(term) && r.Case? && RuleWF(r)
    requires end == pos + |PrintRule(r, term)| && Has(toks, pos, PrintRule(r, term))
    ensures ParseRule(toks, pos, term) == Done(r, end)
  {
    var a := r.caseRule.action;
    assert PrintRule(r, term) == [FatArrow] + (PrintAction(a) + [term]);
    HasHead(toks, pos, FatArrow, PrintAction(a) + [term]);
    HasLast(toks, pos + 1, PrintAction(a), term);
    ActionPrinted(toks, pos + 1, a);
    CaseAssemble(toks, pos, a, pos + 1 + |PrintAction(a)|, term);
  }

  lemma {:induction false} FactPrinted(toks: seq<Token>, pos: nat, r: Rule, term: Token, end: nat)
    requires IsTerm(term) && r.Fact? && RuleWF(r)
    requires end == pos + |PrintRule(r, term)| && Has(toks, pos, PrintRule(r, term))
    ensures ParseRule(toks, pos, term) == Done(r, end)
    decreases r, 0, 0
  {
    var atom := r.fact.condition;
    var t := FactSplit(toks, pos, atom, term, end);
    AtomicPrinted(toks, pos, atom, term, t);
    FactAssemble(toks, pos, atom, t, end, term);
  }

  // ------------------------------------------------- rule layouts and assembly

  lemma EcaSplit(toks: seq<Token>, pos: nat, e: PrimitiveEvent, g: Option<Condition>, a: Action, term: Token, end: nat)
    returns (p1: nat, p2: nat, p3: nat, p4: nat)
    requires IsTerm(term) && EventWF(e)
    requires end == pos + |PrintRule(Rule.Reactive(ECA(e, g, a)), term)| && Has(toks, pos, PrintRule(Rule.Reactive(ECA(e, g, a)), term))
    ensures p1 == pos + 2 && p2 == p1 + |PrintGuard(g, term)| && p3 == p2 + 1 && p4 == p3 + |PrintAction(a)| && end == p4 + 1
    ensures Has(toks, pos, PrintEvent(e)) && Has(toks, p1, PrintGuard(g, term)) && Grammar.At(toks, p2, FatArrow)
    ensures Has(toks, p3, PrintAction(a)) && GroupFollow(SequenceLevel, toks, p4) && Grammar.At(toks, p4, term)
  {
    var ev := PrintEvent(e);
    var guard := PrintGuard(g, term);
    var act := PrintAction(a);
    p1 := pos + 2;
    p2 := p1 + |guard|;
    p3 := p2 + 1;
    p4 := p3 + |act|;
    assert PrintRule(Rule.Reactive(ECA(e, g, a)), term) == (ev + guard) + ([FatArrow] + act + [term]);
    HasSplit(toks, pos, ev + guard, [FatArrow] + act + [term]);
    HasSplit(toks, pos, ev, guard);
    HasStep(toks, p2, FatArrow, act, [term]);
  }

  lemma EcaAssemble(toks: seq<Token>, pos: nat, e: PrimitiveEvent, g: Option<Condition>, a: Action,
                    p1: nat, p2: nat, p3: nat, p4: nat, end: nat, term: Token)
    requires EventWF(e) && Has(toks, pos, PrintEvent(e)) && p1 == pos + 2 && p1 <= |toks|
    requires ParseGuard(toks, p1, term) == (g, p2) && Grammar.At(toks, p2, FatArrow) && p3 == p2 + 1
    requires ActionWF(a) && Has(toks, p3, PrintAction(a)) && p4 == p3 + |PrintAction(a)|
    requires GroupFollow(SequenceLevel, toks, p4) && Grammar.At(toks, p4, term) && end == p4 + 1
    ensures ParseRule(toks, pos, term) == Done(Rule.Reactive(ECA(e, g, a)), end)
  {
    EcaParsed(toks, pos, e, g, a, p1, p2, p3, p4, end, term);
    RuleIsEca(toks, pos, term);
  }

  /** The ECA form in terms of the parts it inspects. */
  lemma EcaShape(toks: seq<Token>, pos: nat, term: Token, ev: Parsed<PrimitiveEvent>, g: Option<Condition>, q: nat,
                 arrow: bool, act: Parsed<Action>, close: bool)
    requires pos <= |toks| && ev == ParsePrimitiveEvent(toks, pos)
    requires ev.Done? ==> ParseGuard(toks, ev.next, term) == (g, q) && arrow == Grammar.At(toks, q, FatArrow)
    requires ev.Done? && arrow ==> act == ParseAction(toks, q + 1)
    requires ev.Done? && arrow && act.Done? ==> close == Grammar.At(toks, act.next, term)
    ensures ParseEca(toks, pos, term)
      == if ev.Done? && arrow && act.Done? && close then Done(Rule.Reactive(ECA(ev.value, g, act.value)), act.next + 1)
         else Fail
  {
  }

  lemma EcaParsed(toks: seq<Token>, pos: nat, e: PrimitiveEvent, g: Option<Condition>, a: Action,
                  p1: nat, p2: nat, p3: nat, p4: nat, end: nat, term: Token)
    requires EventWF(e) && Has(toks, pos, PrintEvent(e)) && p1 == pos + 2 && p1 <= |toks|
    requires ParseGuard(toks, p1, term) == (g, p2) && Grammar.At(toks, p2, FatArrow) && p3 == p2 + 1
    requires ActionWF(a) && Has(toks, p3, PrintAction(a)) && p4 == p3 + |PrintAction(a)|
    requires GroupFollow(SequenceLevel, toks, p4) && Grammar.At(toks, p4, term) && end == p4 + 1
    ensures ParseEca(toks, pos, term) == Done(Rule.Reactive(ECA(e, g, a)), end)
  {
    EventPrinted(toks, pos, e);
    ActionPrinted(toks, p3, a);
    assert ParsePrimitiveEvent(toks, pos) == Done(e, p1);
    assert ParseAction(toks, p3) == Done(a, p4);
    assert Grammar.At(toks, p4, term);
    EcaShape(toks, pos, term, Done(e, p1), g, p2, true, Done(a, p4), true);
  }

  lemma CaSplit(toks: seq<Token>, pos: nat, c: Condition, a: Action, term: Token, end: nat)
    returns (p1: nat, p2: nat, p3: nat, p4: nat)
    requires IsTerm(term)
    requires end == pos + |PrintRule(Rule.Reactive(CA(c, a)), term)| && Has(toks, pos, PrintRule(Rule.Reactive(CA(c, a)), term))
    ensures p1 == pos + 1 && p2 == p1 + |PrintCondition(c, term)| && p3 == p2 + 1 && p4 == p3 + |PrintAction(a)| && end == p4 + 1
    ensures Grammar.At(toks, pos, Colon) && Has(toks, p1, PrintCondition(c, term)) && CondFollow(toks, p2)
    ensures Grammar.At(toks, p2, FatArrow) && Has(toks, p3, PrintAction(a))
    ensures GroupFollow(SequenceLevel, toks, p4) && Grammar.At(toks, p4, term)
  {
    var cond := PrintCondition(c, term);
    var act := PrintAction(a);
    p1 := pos + 1;
    p2 := p1 + |cond|;
    p3 := p2 + 1;
    p4 := p3 + |act|;
    assert PrintRule(Rule.Reactive(CA(c, a)), term) == [Colon] + cond + ([FatArrow] + act + [term]);
    HasStep(toks, pos, Colon, cond, [FatArrow] + act + [term]);
    HasStep(toks, p2, FatArrow, act, [term]);
  }

  /** The CA form in terms of the parts it inspects. */
  lemma CaShape(toks: seq<Token>, pos: nat, term: Token, colon: bool, c: Parsed<Condition>,
                arrow: bool, act: Parsed<Action>, close: bool)
    requires pos <= |toks| && colon == Grammar.At(toks, pos, Colon)
    requires colon ==> c == ParseCondition(toks, pos + 1, term)
    requires colon && c.Done? ==> arrow == Grammar.At(toks, c.next, FatArrow)
    requires colon && c.Done? && arrow ==> act == ParseAction(toks, c.next + 1)
    requires colon && c.Done? && arrow && act.Done? ==> close == Grammar.At(toks, act.next, term)
    ensures ParseCa(toks, pos, term)
      == if colon && c.Done? && arrow && act.Done? && close then Done(Rule.Reactive(CA(c.value, act.value)), act.next + 1)
         else Fail
  {
  }

  lemma CaAssemble(toks: seq<Token>, pos: nat, c: Condition, a: Action,
                   p1: nat, p2: nat, p3: nat, p4: nat, end: nat, term: Token)
    requires Grammar.At(toks, pos, Colon) && p1 == pos + 1 && ParseCondition(toks, p1, term) == Done(c, p2)
    requires Grammar.At(toks, p2, FatArrow) && p3 == p2 + 1 && ActionWF(a) && Has(toks, p3, PrintAction(a))
    requires p4 == p3 + |PrintAction(a)| && GroupFollow(SequenceLevel, toks, p4) && Grammar.At(toks, p4, term)
    requires end == p4 + 1
    ensures ParseRule(toks, pos, term) == Done(Rule.Reactive(CA(c, a)), end)
  {
    ActionPrinted(toks, p3, a);
    CaShape(toks, pos, term, true, Done(c, p2), true, Done(a, p4), true);
    RuleIsCa(toks, pos, term);
  }

  lemma CcSplit(toks: seq<Token>, pos: nat, p: Option<Condition>, atom: AtomicCondition, term: Token, end: nat)
    returns (q: nat, a: nat, t: nat)
    requires IsTerm(term)
    requires end == pos + |PrintRule(Rule.Declarative(CC(p, atom)), term)| && Has(toks, pos, PrintRule(Rule.Declarative(CC(p, atom)), term))
    ensures q == pos + |PrintPremise(p, term)| && a == q + 1 && t == a + |PrintAtomic(atom, term)| && end == t + 1
    ensures Has(toks, pos, PrintPremise(p, term)) && Grammar.At(toks, q, ThinArrow)
    ensures Has(toks, a, PrintAtomic(atom, term)) && UnaryFollow(toks, t) && Grammar.At(toks, t, term)
  {
    var premise := PrintPremise(p, term);
    var at := PrintAtomic(atom, term);
    q := pos + |premise|;
    a := q + 1;
    t := a + |at|;
    assert PrintRule(Rule.Declarative(CC(p, atom)), term) == premise + ([ThinArrow] + at + [term]);
    HasSplit(toks, pos, premise, [ThinArrow] + at + [term]);
    HasStep(toks, q, ThinArrow, at, [term]);
  }

  /** The CC form in terms of the parts it inspects. */
  lemma CcShape(toks: seq<Token>, pos: nat, term: Token, p: Option<Condition>, q: nat,
                arrow: bool, atom: Parsed<AtomicCondition>, close: bool)
    requires pos <= |toks| && ParsePremise(toks, pos, term) == (p, q) && arrow == Grammar.At(toks, q, ThinArrow)
    requires arrow ==> atom == ParseAtomic(toks, q + 1, term)
    requires arrow && atom.Done? ==> close == Grammar.At(toks, atom.next, term)
    ensures ParseCc(toks, pos, term)
      == if arrow && atom.Done? && close then Done(Rule.Declarative(CC(p, atom.value)), atom.next + 1) else Fail
  {
  }

  /** The CT form in terms of the parts it inspects. */
  lemma CtShape(toks: seq<Token>, pos: nat, term: Token, p: Option<Condition>, q: nat,
                arrow: bool, c: Parsed<Condition>, close: bool)
    requires pos <= |toks| && ParsePremise(toks, pos, term) == (p, q) && arrow == Grammar.At(toks, q, DashO)
    requires arrow ==> c == ParseCondition(toks, q + 1, term)
    requires arrow && c.Done? ==> close == Grammar.At(toks, c.next, term)
    ensures ParseCt(toks, pos, term)
      == if arrow && c.Done? && close then Done(Rule.Declarative(CT(p, c.value)), c.next + 1) else Fail
  {
  }

  lemma CcAssemble(toks: seq<Token>, pos: nat, p: Option<Condition>, atom: AtomicCondition,
                   q: nat, a: nat, t: nat, end: nat, term: Token)
    requires pos <= |toks| && ParsePremise(toks, pos, term) == (p, q) && Grammar.At(toks, q, ThinArrow)
    requires a == q + 1 && ParseAtomic(toks, a, term) == Done(atom, t) && Grammar.At(toks, t, term) && end == t + 1
    ensures ParseRule(toks, pos, term) == Done(Rule.Declarative(CC(p, atom)), end)
  {
    CcShape(toks, pos, term, p, q, true, Done(atom, t), true);
    RuleIsCc(toks, pos, term);
  }

  lemma CtSplit(toks: seq<Token>, pos: nat, p: Option<Condition>, c: Condition, term: Token, end: nat)
    returns (q: nat, a: nat, t: nat)
    requires IsTerm(term)
    requires end == pos + |PrintRule(Rule.Declarative(CT(p, c)), term)| && Has(toks, pos, PrintRule(Rule.Declarative(CT(p, c)), term))
    ensures q == pos + |PrintPremise(p, term)| && a == q + 1 && t == a + |PrintCondition(c, term)| && end == t + 1
    ensures Has(toks, pos, PrintPremise(p, term)) && Grammar.At(toks, q, DashO)
    ensures Has(toks, a, PrintCondition(c, term)) && CondFollow(toks, t) && Grammar.At(toks, t, term)
  {
    var premise := PrintPremise(p, term);
    var cond := PrintCondition(c, term);
    q := pos + |premise|;
    a := q + 1;
    t := a + |cond|;
    assert PrintRule(Rule.Declarative(CT(p, c)), term) == premise + ([DashO] + cond + [term]);
    HasSplit(toks, pos, premise, [DashO] + cond + [term]);
    HasStep(toks, q, DashO, cond, [term]);
  }

  lemma CtAssemble(toks: seq<Token>, pos: nat, p: Option<Condition>, c: Condition,
                   q: nat, a: nat, t: nat, end: nat, term: Token)
    requires pos <= |toks| && ParsePremise(toks, pos, term) == (p, q) && Grammar.At(toks, q, DashO)
    requires a == q + 1 && ParseCondition(toks, a, term) == Done(c, t) && Grammar.At(toks, t, term) && end == t + 1
    ensures ParseRule(toks, pos, term) == Done(Rule.Declarative(CT(p, c)), end)
  {
    CcShape(toks, pos, term, p, q, false, Fail, false);
    CtShape(toks, pos, term, p, q, true, Done(c, t), true);
    RuleIsCt(toks, pos, term);
  }

  lemma CaseAssemble(toks: seq<Token>, pos: nat, a: Action, n: nat, term: Token)
    requires Grammar.At(toks, pos, FatArrow) && ParseAction(toks, pos + 1) == Done(a, n) && Grammar.At(toks, n, term)
    ensures ParseRule(toks, pos, term) == Done(Rule.Case(CaseRule(a)), n + 1)
  {
    assert ParseCaseRule(toks, pos, term) == Done(Rule.Case(CaseRule(a)), n + 1);
    RuleIsCase(toks, pos, term);
  }

  lemma FactSplit(toks: seq<Token>, pos: nat, atom: AtomicCondition, term: Token, end: nat) returns (t: nat)
    requires IsTerm(term)
    requires end == pos + |PrintRule(Rule.Fact(FactRule(atom)), term)| && Has(toks, pos, PrintRule(Rule.Fact(FactRule(atom)), term))
    ensures t == pos + |PrintAtomic(atom, term)| && end == t + 1
    ensures Has(toks, pos, PrintAtomic(atom, term)) && Grammar.At(toks, t, term) && UnaryFollow(toks, t)
  {
    t := pos + |PrintAtomic(atom, term)|;
    HasLast(toks, pos, PrintAtomic(atom, term), term);
  }

  lemma FactAssemble(toks: seq<Token>, pos: nat, atom: AtomicCondition, t: nat, end: nat, term: Token)
    requires IsTerm(term) && pos <= |toks| && ParseAtomic(toks, pos, term) == Done(atom, t)
    requires Grammar.At(toks, t, term) && end == t + 1
    ensures ParseRule(toks, pos, term) == Done(Rule.Fact(FactRule(atom)), end)
  {
    AtomicAsCondition(toks, pos, term, atom, t);
    assert ParsePremise(toks, pos, term) == (Some(Atomic(atom)), t);
    CcShape(toks, pos, term, Some(Atomic(atom)), t, false, Fail, false);
    CtShape(toks, pos, term, Some(Atomic(atom)), t, false, Fail, false);
    assert ParseFact(toks, pos, term) == Done(Rule.Fact(FactRule(atom)), end);
    RuleIsFact(toks, pos, term);
  }

  // ------------------------------------------ the ordered choice of forms

  lemma RuleIsEca(toks: seq<Token>, pos: nat, term: Token)
    requires pos <= |toks| && ParseEca(toks, pos, term).Done?
    ensures ParseRule(toks, pos, term) == ParseEca(toks, pos, term)
  {
  }

  lemma RuleIsCa(toks: seq<Token>, pos: nat, term: Token)
    requires pos <= |toks| && ParseCa(toks, pos, term).Done?
    ensures ParseRule(toks, pos, term) == ParseCa(toks, pos, term)
  {
  }

  lemma RuleIsCc(toks: seq<Token>, pos: nat, term: Token)
    requires pos < |toks| && toks[pos] !in {Hash, Plus, Minus, Colon} && ParseCc(toks, pos, term).Done?
    ensures ParseRule(toks, pos, term) == ParseCc(toks, pos, term)
  {
  }

  lemma RuleIsCt(toks: seq<Token>, pos: nat, term: Token)
    requires pos < |toks| && toks[pos] !in {Hash, Plus, Minus, Colon}
    requires ParseCc(toks, pos, term).Fail? && ParseCt(toks, pos, term).Done?
    ensures ParseRule(toks, pos, term) == ParseCt(toks, pos, term)
  {
  }

  lemma RuleIsCase(toks: seq<Token>, pos: nat, term: Token)
    requires pos < |toks| && toks[pos] == FatArrow && ParseCaseRule(toks, pos, term).Done?
    ensures ParseRule(toks, pos, term) == ParseCaseRule(toks, pos, term)
  {
    assert ParsePremise(toks, pos, term) == (None, pos);
  }

  lemma RuleIsFact(toks: seq<Token>, pos: nat, term: Token)
    requires pos < |toks| && StartsCondition(toks[pos])
    requires ParseCc(toks, pos, term).Fail? && ParseCt(toks, pos, term).Fail? && ParseFact(toks, pos, term).Done?
    ensures ParseRule(toks, pos, term) == ParseFact(toks, pos, term)
  {
  }
}
