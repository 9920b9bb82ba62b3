/**
 * Consequences of the round trip for whole inputs: every well-formed
 * condition, atomic condition, compound, rule and program is read back
 * from its printed tokens; juxtaposed primaries and empty inputs are
 * rejected; `,`/`par` and `;`/`seq` are interchangeable in actions; and the
 * precedence of the operators, shown on the trees the parser tests expect.
 */
module ParserFacts {
  import opened Wrappers
  import opened Tokens
  import opened Ast
  import opened Grammar
  import opened Printer
  import opened GrammarFacts
  import opened RuleFacts

  // ------------------------------------------------------------ round trips

  lemma ConditionRoundTrip(c: Condition, term: Token)
    requires IsTerm(term) && ConditionWF(c)
    ensures ConditionOf(PrintCondition(c, term), term) == Some(c)
  {
    var toks := PrintCondition(c, term);
    HasWhole(toks);
    ConditionPrinted(toks, 0, c, term, |toks|);
  }

  lemma AtomicRoundTrip(ac: AtomicCondition, term: Token)
    requires IsTerm(term) && AtomicWF(ac)
    ensures AtomicOf(PrintAtomic(ac, term), term) == Some(ac)
  {
    var toks := PrintAtomic(ac, term);
    HasWhole(toks);
    AtomicPrinted(toks, 0, ac, term, |toks|);
  }

  lemma CompoundRoundTrip(cp: Compound, term: Token)
    requires IsTerm(term) && CompoundWF(cp)
    ensures CompoundOf(PrintCompound(cp, term), term) == Some(cp)
  {
    var toks := PrintCompound(cp, term);
    HasWhole(toks);
    var b, close := CompoundSplit(toks, 0, cp, term, |toks|);
    RulesPrinted(toks, b, cp.rules, 0, term, close);
    CompoundAssemble(toks, 0, cp, b, close, |toks|, term);
  }

  lemma RuleRoundTrip(r: Rule, term: Token)
    requires IsTerm(term) && RuleWF(r)
    ensures RuleOf(PrintRule(r, term), term) == Some(r)
  {
    var toks := PrintRule(r, term);
    HasWhole(toks);
    RulePrinted(toks, 0, r, term, |toks|);
  }

  /** A program of well-formed rules is read back rule by rule, in order. */
  lemma ProgramRoundTrip(rs: seq<Rule>, term: Token)
    requires IsTerm(term) && forall k :: 0 <= k < |rs| ==> RuleWF(rs[k])
    ensures ProgramOf(PrintProgram(rs, term), term).Some?
    ensures Rules(ProgramOf(PrintProgram(rs, term), term).value) == rs
  {
    var toks := PrintProgram(rs, term);
    HasWhole(toks);
    RulesPrinted(toks, 0, rs, 0, term, |toks|);
    DropNone(rs);
  }

  // ------------------------------------------------------------- rejections

  /** No parser accepts empty input, except the program parser, which reads no rules. */
  lemma EmptyInput(term: Token)
    ensures ActionOf([]) == None && PrimitiveEventOf([]) == None
    ensures ConditionOf([], term) == None && AtomicOf([], term) == None
    ensures CompoundOf([], term) == None && RuleOf([], term) == None
    ensures ProgramOf([], term) == Some([])
  {
    assert ParseRule([], 0, term).Fail?;
  }

  /** A condition followed directly by the start of another condition is rejected. */
  lemma JuxtaposedConditions(c: Condition, rest: seq<Token>, term: Token)
    requires IsTerm(term) && ConditionWF(c) && |rest| > 0 && StartsCondition(rest[0])
    ensures ConditionOf(PrintCondition(c, term) + rest, term) == None
  {
    var p := PrintCondition(c, term);
    var toks := p + rest;
    HasWhole(toks);
    HasSplit(toks, 0, p, rest);
    HasFirst(toks, |p|, rest);
    ConditionPrinted(toks, 0, c, term, |p|);
  }

  /** An action followed directly by another event is rejected. */
  lemma JuxtaposedActions(a: Action, rest: seq<Token>)
    requires ActionWF(a) && |rest| > 0 && rest[0] in {Hash, Plus, Minus}
    ensures ActionOf(PrintAction(a) + rest) == None
  {
    var p := PrintAction(a);
    var toks := p + rest;
    HasWhole(toks);
    HasSplit(toks, 0, p, rest);
    HasFirst(toks, |p|, rest);
    ActionPrinted(toks, 0, a);
  }

  predicate IsConditionSeparator(t: Token)
  {
    t in {And, Comma, Or, Semicolon}
  }

  /** A condition can neither start nor end with `and`, `,`, `or` or `;`. */
  lemma SeparatorAtEdgeRejected(toks: seq<Token>, term: Token)
    requires |toks| > 0 && (IsConditionSeparator(toks[0]) || IsConditionSeparator(toks[|toks| - 1]))
    ensures ConditionOf(toks, term) == None
  {
  }

  // --------------------------------------------------------------- negation

  function Nots(k: nat): (toks: seq<Token>)
    ensures |toks| == k && forall i :: 0 <= i < k ==> toks[i] == Token.Not
  {
    if k == 0 then [] else [Token.Not] + Nots(k - 1)
  }

  lemma {:induction false} PrintWrapNots(c: Condition, k: nat, term: Token)
    ensures PrintUnary(WrapNots(c, k), term) == Nots(k) + PrintUnary(c, term)
    ensures UnaryWF(c) ==> UnaryWF(WrapNots(c, k))
  {
    if k > 0 {
      PrintWrapNots(c, k - 1, term);
      assert [Token.Not] + (Nots(k - 1) + PrintUnary(c, term)) == Nots(k) + PrintUnary(c, term);
    }
  }

  /** `k` leading `not`s wrap the primary after them in exactly `k` negations. */
  lemma NotPrefix(c: Condition, k: nat, term: Token)
    requires IsTerm(term) && UnaryWF(c)
    ensures ConditionOf(Nots(k) + PrintUnary(c, term), term) == Some(WrapNots(c, k))
  {
    PrintWrapNots(c, k, term);
    ConditionRoundTrip(WrapNots(c, k), term);
  }

  // ------------------------------------------------- separators in actions

  /** `par` reads as `,` and `seq` as `;`. */
  function ActionSpelling(t: Token): Token
  {
    if t == Par then Comma else if t == Seq then Semicolon else t
  }

  function Respell(toks: seq<Token>): (r: seq<Token>)
    ensures |r| == |toks| && forall k :: 0 <= k < |toks| ==> r[k] == ActionSpelling(toks[k])
  {
    if |toks| == 0 then [] else [ActionSpelling(toks[0])] + Respell(toks[1..])
  }

  lemma EventRespelled(toks: seq<Token>, pos: nat)
    ensures ParsePrimitiveEvent(Respell(toks), pos) == ParsePrimitiveEvent(toks, pos)
  {
  }

  lemma {:induction false} ItemRespelled(toks: seq<Token>, pos: nat, level: nat)
    ensures ParseItem(Respell(toks), pos, level) == ParseItem(toks, pos, level)
    decreases |toks| - pos, level, 0
  {
    if level == 0 {
      EventRespelled(toks, pos);
    } else {
      GroupRespelled(toks, pos, level - 1);
    }
  }

  lemma {:induction false} GroupRespelled(toks: seq<Token>, pos: nat, level: nat)
    ensures ParseGroup(Respell(toks), pos, level) == ParseGroup(toks, pos, level)
    decreases |toks| - pos, level, 1
  {
    ItemRespelled(toks, pos, level);
    var r := ParseItem(toks, pos, level);
    if r.Done? {
      TailRespelled(toks, r.next, level, [r.value]);
    }
  }

  /** The group tail in terms of the parts it inspects. */
  lemma TailShape(toks: seq<Token>, pos: nat, level: nat, acc: seq<Action>,
                  sep: bool, item: Parsed<Action>, rest: Parsed<seq<Action>>)
    requires pos <= |toks| && sep == (pos < |toks| && IsSeparator(level, toks[pos]))
    requires sep ==> item == ParseItem(toks, pos + 1, level)
    requires sep && item.Done? ==> rest == GroupTail(toks, item.next, level, acc + [item.value])
    ensures GroupTail(toks, pos, level, acc)
      == if !sep then Done(acc, pos) else if item.Fail? then Done(acc, pos + 1) else rest
  {
  }

  lemma {:induction false} TailRespelled(toks: seq<Token>, pos: nat, level: nat, acc: seq<Action>)
    requires pos <= |toks|
    ensures GroupTail(Respell(toks), pos, level, acc) == GroupTail(toks, pos, level, acc)
    decreases |toks| - pos, level, 2
  {
    var spelled := Respell(toks);
    var sep := pos < |toks| && IsSeparator(level, toks[pos]);
    var item: Parsed<Action> := Fail;
    var rest: Parsed<seq<Action>> := Fail;
    if sep {
      ItemRespelled(toks, pos + 1, level);
      item := ParseItem(toks, pos + 1, level);
      if item.Done? {
        TailRespelled(toks, item.next, level, acc + [item.value]);
        rest := GroupTail(toks, item.next, level, acc + [item.value]);
      }
    }
    TailShape(toks, pos, level, acc, sep, item, rest);
    TailShape(spelled, pos, level, acc, sep, item, rest);
  }

  /** Writing `par` for `,` or `seq` for `;` anywhere does not change how an action parses. */
  lemma ActionRespelled(toks: seq<Token>)
    ensures ActionOf(Respell(toks)) == ActionOf(toks)
  {
    GroupRespelled(toks, 0, SequenceLevel);
  }

  // ------------------------------------------------------------- precedence

  function Var(name: string): Condition
  {
    Atomic(PrimVar(name))
  }

  function Fire(name: string): Action
  {
    Action.Primitive(Trigger(name))
  }

  /** "not a and b": `not` applies to `a` alone. */
  lemma NotBindsTighterThanAnd(term: Token)
    requires IsTerm(term)
    ensures ConditionOf([Token.Not, Descriptor("a"), And, Descriptor("b")], term)
      == Some(Conjunction([Condition.Not(Var("a")), Var("b")]))
  {
    var c := Conjunction([Condition.Not(Var("a")), Var("b")]);
    assert PrintUnary(Condition.Not(Var("a")), term) == [Token.Not, Descriptor("a")];
    assert PrintAndRest(c.conjuncts, 1, term) == [And, Descriptor("b")];
    assert PrintCondition(c, term) == [Token.Not, Descriptor("a"), And, Descriptor("b")];
    ConditionRoundTrip(c, term);
  }

  lemma AndThenOrPrinted(term: Token)
    ensures PrintCondition(Disjunction([Conjunction([Var("a"), Var("b")]), Var("c")]), term)
      == [Descriptor("a"), And, Descriptor("b"), Or, Descriptor("c")]
  {
    var c := Disjunction([Conjunction([Var("a"), Var("b")]), Var("c")]);
    assert PrintConjunction(c.disjuncts[0], term) == [Descriptor("a"), And, Descriptor("b")];
    assert PrintOrRest(c.disjuncts, 1, term) == [Or, Descriptor("c")];
  }

  lemma OrThenAndPrinted(term: Token)
    ensures PrintCondition(Disjunction([Var("a"), Conjunction([Var("b"), Var("c")])]), term)
      == [Descriptor("a"), Or, Descriptor("b"), And, Descriptor("c")]
  {
    var c := Disjunction([Var("a"), Conjunction([Var("b"), Var("c")])]);
    assert PrintConjunction(c.disjuncts[1], term) == [Descriptor("b"), And, Descriptor("c")];
    assert PrintOrRest(c.disjuncts, 1, term) == [Or, Descriptor("b"), And, Descriptor("c")];
  }

  /** "a and b or c" and "a or b and c": `and` groups before `or`, on either side. */
  lemma AndBindsTighterThanOr(term: Token)
    requires IsTerm(term)
    ensures ConditionOf([Descriptor("a"), And, Descriptor("b"), Or, Descriptor("c")], term)
      == Some(Disjunction([Conjunction([Var("a"), Var("b")]), Var("c")]))
    ensures ConditionOf([Descriptor("a"), Or, Descriptor("b"), And, Descriptor("c")], term)
      == Some(Disjunction([Var("a"), Conjunction([Var("b"), Var("c")])]))
  {
    AndThenOrPrinted(term);
    ConditionRoundTrip(Disjunction([Conjunction([Var("a"), Var("b")]), Var("c")]), term);
    OrThenAndPrinted(term);
    ConditionRoundTrip(Disjunction([Var("a"), Conjunction([Var("b"), Var("c")])]), term);
  }

  /** "not (a)": parentheses are kept as a node of their own. */
  lemma ParenthesesKept(term: Token)
    requires IsTerm(term)
    ensures ConditionOf([Token.Not, LeftParenthesis, Descriptor("a"), RightParenthesis], term)
      == Some(Condition.Not(Parentheses(Var("a"))))
  {
    var c := Condition.Not(Parentheses(Var("a")));
    assert PrintUnary(Parentheses(Var("a")), term) == [LeftParenthesis, Descriptor("a"), RightParenthesis];
    assert PrintCondition(c, term) == [Token.Not, LeftParenthesis, Descriptor("a"), RightParenthesis];
    ConditionRoundTrip(c, term);
  }

  /** `#a sep #b`. */
  function Pair(a: string, sep: Token, b: string): seq<Token>
  {
    [Hash, Descriptor(a), sep, Hash, Descriptor(b)]
  }

  /** The four events `#a par #b alt #c par #d`. */
  function ParAltTokens(a: string, b: string, c: string, d: string): seq<Token>
  {
    Pair(a, Par, b) + [Alt] + Pair(c, Par, d)
  }

  function ParTree(a: string, b: string): Action
  {
    Action.List(Parallel([Fire(a), Fire(b)]))
  }

  /** `(a par b) alt (c par d)` as a tree. */
  function ParAltTree(a: string, b: string, c: string, d: string): Action
  {
    Action.List(Alternative([ParTree(a, b), ParTree(c, d)]))
  }

  lemma {:induction false} RespellAppend(x: seq<Token>, y: seq<Token>)
    ensures Respell(x + y) == Respell(x) + Respell(y)
  {
    var r := Respell(x) + Respell(y);
    assert forall k :: 0 <= k < |r| ==> r[k] == ActionSpelling((x + y)[k]);
  }

  lemma RespellPair(a: string, b: string)
    ensures Respell(Pair(a, Par, b)) == Pair(a, Comma, b)
  {
    var r := Respell(Pair(a, Par, b));
    assert r[2] == Comma;
  }

  /** An event reads as the same event at every level. */
  lemma {:induction false} EventGroup(e: PrimitiveEvent, level: nat)
    requires EventWF(e) && level <= SequenceLevel
    ensures PrintGroup(Action.Primitive(e), level) == PrintEvent(e)
    ensures GroupWF(Action.Primitive(e), level) && ItemWF(Action.Primitive(e), level)
  {
    if level > 0 {
      EventGroup(e, level - 1);
    }
  }

  /** A two-item group of `level` is printed as its items around the level's separator. */
  lemma PairGroup(x: Action, y: Action, level: nat)
    requires level <= SequenceLevel && ItemWF(x, level) && ItemWF(y, level)
    ensures var g := Action.List(ListOf(level, [x, y]));
      GroupWF(g, level) && PrintGroup(g, level) == PrintItem(x, level) + [SeparatorToken(level)] + PrintItem(y, level)
  {
    var items := [x, y];
    assert PrintGroupRest(items, 2, level) == [];
    assert PrintGroupRest(items, 1, level) == [SeparatorToken(level)] + PrintItem(y, level);
  }

  lemma ParPrinted(a: string, b: string)
    ensures GroupWF(ParTree(a, b), ParallelLevel) && PrintGroup(ParTree(a, b), ParallelLevel) == Pair(a, Comma, b)
  {
    EventGroup(Trigger(a), 0);
    EventGroup(Trigger(b), 0);
    PairGroup(Fire(a), Fire(b), ParallelLevel);
  }

  lemma RespellParAlt(a: string, b: string, c: string, d: string)
    ensures Respell(ParAltTokens(a, b, c, d)) == Pair(a, Comma, b) + [Alt] + Pair(c, Comma, d)
  {
    RespellAppend(Pair(a, Par, b) + [Alt], Pair(c, Par, d));
    RespellAppend(Pair(a, Par, b), [Alt]);
    RespellPair(a, b);
    RespellPair(c, d);
    assert Respell([Alt]) == [Alt];
  }

  lemma ParAltPrinted(a: string, b: string, c: string, d: string)
    ensures GroupWF(ParAltTree(a, b, c, d), AlternativeLevel)
    ensures PrintGroup(ParAltTree(a, b, c, d), AlternativeLevel) == Respell(ParAltTokens(a, b, c, d))
  {
    var x, y := ParTree(a, b), ParTree(c, d);
    ParPrinted(a, b);
    ParPrinted(c, d);
    assert ItemWF(x, AlternativeLevel) && PrintItem(x, AlternativeLevel) == Pair(a, Comma, b);
    assert ItemWF(y, AlternativeLevel) && PrintItem(y, AlternativeLevel) == Pair(c, Comma, d);
    PairGroup(x, y, AlternativeLevel);
    assert ParAltTree(a, b, c, d) == Action.List(ListOf(AlternativeLevel, [x, y]));
    RespellParAlt(a, b, c, d);
  }

  /** Two alternative-level groups written with `seq` between them read as their sequence. */
  lemma SeqOfGroups(x: Action, y: Action, left: seq<Token>, right: seq<Token>)
    requires GroupWF(x, AlternativeLevel) && PrintGroup(x, AlternativeLevel) == Respell(left)
    requires GroupWF(y, AlternativeLevel) && PrintGroup(y, AlternativeLevel) == Respell(right)
    ensures ActionOf(left + [Seq] + right) == Some(Action.List(Sequence([x, y])))
  {
    var g := Action.List(Sequence([x, y]));
    var toks := left + [Seq] + right;
    assert g == Action.List(ListOf(SequenceLevel, [x, y]));
    PairGroup(x, y, SequenceLevel);
    assert PrintAction(g) == Respell(left) + [Semicolon] + Respell(right);
    RespellAppend(left + [Seq], right);
    RespellAppend(left, [Seq]);
    assert Respell([Seq]) == [Semicolon];
    assert Respell(toks) == PrintAction(g);
    ActionRoundTrip(g);
    ActionRespelled(toks);
  }

  /**
   * "#a par #b alt #c par #d seq #e par #f alt #g par #h": `par` binds
   * tighter than `alt`, which binds tighter than `seq`.
   */
  lemma ActionPrecedence()
    ensures ActionOf(ParAltTokens("a", "b", "c", "d") + [Seq] + ParAltTokens("e", "f", "g", "h"))
      == Some(Action.List(Sequence([ParAltTree("a", "b", "c", "d"), ParAltTree("e", "f", "g", "h")])))
  {
    ParAltPrinted("a", "b", "c", "d");
    ParAltPrinted("e", "f", "g", "h");
    SeqOfGroups(ParAltTree("a", "b", "c", "d"), ParAltTree("e", "f", "g", "h"),
      ParAltTokens("a", "b", "c", "d"), ParAltTokens("e", "f", "g", "h"));
  }

  /** "+a": a single event is that event, not a one-element list. */
  lemma SingleEventCollapses(name: string)
    ensures ActionOf([Plus, Descriptor(name)]) == Some(Action.Primitive(Production(PrimVar(name))))
  {
    EventGroup(Production(PrimVar(name)), SequenceLevel);
    ActionRoundTrip(Action.Primitive(Production(PrimVar(name))));
  }

  // ---------------------------------------------- separators in conditions

  /** `,` reads as `and` and `;` as `or`. */
  function ConditionSpelling(t: Token): Token
  {
    if t == Comma then And else if t == Semicolon then Or else t
  }

  function RespellCondition(toks: seq<Token>): (r: seq<Token>)
    ensures |r| == |toks| && forall k :: 0 <= k < |toks| ==> r[k] == ConditionSpelling(toks[k])
  {
    if |toks| == 0 then [] else [ConditionSpelling(toks[0])] + RespellCondition(toks[1..])
  }

  /** No compound starts anywhere in the tokens, so no action is read inside a condition. */
  predicate NoCompound(toks: seq<Token>)
  {
    forall k :: 0 <= k < |toks| ==> toks[k] != LeftCBracket
  }

  /** `spelled` is `toks` with `,` written as `and` and `;` as `or`. */
  predicate SpelledAs(toks: seq<Token>, spelled: seq<Token>)
  {
    |spelled| == |toks| && forall k :: 0 <= k < |toks| ==> spelled[k] == ConditionSpelling(toks[k])
  }

  lemma {:induction false} NotsRespelled(toks: seq<Token>, spelled: seq<Token>, pos: nat)
    requires pos <= |toks|
    requires SpelledAs(toks, spelled)
    ensures CountNots(spelled, pos) == CountNots(toks, pos)
    decreases |toks| - pos
  {
    SameAt(toks, spelled, pos, Token.Not);
    if Grammar.At(toks, pos, Token.Not) {
      NotsRespelled(toks, spelled, pos + 1);
    }
  }

  lemma AtomicRespelled(toks: seq<Token>, spelled: seq<Token>, pos: nat, term: Token)
    requires pos <= |toks| && NoCompound(toks)
    requires SpelledAs(toks, spelled)
    ensures ParseAtomic(spelled, pos, term) == ParseAtomic(toks, pos, term)
  {
    if DescriptorAt(toks, pos) {
      assert spelled[pos] == toks[pos];
    } else {
      assert !DescriptorAt(spelled, pos) && !Grammar.At(spelled, pos, LeftCBracket);
      assert ParseAtomic(spelled, pos, term).Fail?;
      assert ParseAtomic(toks, pos, term).Fail?;
    }
  }

  /** Respelling keeps every token other than `,` and `;` where it is. */
  lemma SameAt(toks: seq<Token>, spelled: seq<Token>, p: nat, t: Token)
    requires SpelledAs(toks, spelled) && t != Comma && t != Semicolon && t != And && t != Or
    ensures Grammar.At(spelled, p, t) == Grammar.At(toks, p, t)
  {
  }

  /** The primary parser in terms of the parts it inspects. */
  lemma PrimaryShape(toks: seq<Token>, pos: nat, term: Token,
                     a: Parsed<AtomicCondition>, open: bool, c: Parsed<Condition>, close: bool)
    requires pos <= |toks| && a == ParseAtomic(toks, pos, term) && open == Grammar.At(toks, pos, LeftParenthesis)
    requires open ==> c == ParseCondition(toks, pos + 1, term)
    requires open && c.Done? ==> close == Grammar.At(toks, c.next, RightParenthesis)
    ensures ParsePrimary(toks, pos, term)
      == if a.Done? then Done(Atomic(a.value), a.next)
         else if open && c.Done? && close then Done(Parentheses(c.value), c.next + 1)
         else Fail
  {
  }

  /** Each part the primary parser inspects reads the same in both spellings. */
  lemma {:induction false} PrimaryPartsRespelled(toks: seq<Token>, spelled: seq<Token>, pos: nat, term: Token)
    requires pos <= |toks| && NoCompound(toks)
    requires SpelledAs(toks, spelled)
    ensures ParseAtomic(spelled, pos, term) == ParseAtomic(toks, pos, term)
    ensures Grammar.At(spelled, pos, LeftParenthesis) == Grammar.At(toks, pos, LeftParenthesis)
    ensures Grammar.At(toks, pos, LeftParenthesis) ==>
      ParseCondition(spelled, pos + 1, term) == ParseCondition(toks, pos + 1, term)
    ensures Grammar.At(toks, pos, LeftParenthesis) && ParseCondition(toks, pos + 1, term).Done? ==>
      var e := ParseCondition(toks, pos + 1, term).next;
      Grammar.At(spelled, e, RightParenthesis) == Grammar.At(toks, e, RightParenthesis)
    decreases |toks| - pos, 3
  {
    AtomicRespelled(toks, spelled, pos, term);
    SameAt(toks, spelled, pos, LeftParenthesis);
    if Grammar.At(toks, pos, LeftParenthesis) {
      ConditionRespelled(toks, spelled, pos + 1, term);
      var c := ParseCondition(toks, pos + 1, term);
      if c.Done? {
        SameAt(toks, spelled, c.next, RightParenthesis);
      }
    }
  }

  lemma {:induction false} PrimaryRespelled(toks: seq<Token>, spelled: seq<Token>, pos: nat, term: Token)
    requires pos <= |toks| && NoCompound(toks)
    requires SpelledAs(toks, spelled)
    ensures ParsePrimary(spelled, pos, term) == ParsePrimary(toks, pos, term)
    decreases |toks| - pos, 4
  {
    PrimaryPartsRespelled(toks, spelled, pos, term);
    var a := ParseAtomic(toks, pos, term);
    var open := Grammar.At(toks, pos, LeftParenthesis);
    var c := if open then ParseCondition(toks, pos + 1, term) else Fail;
    var close := open && c.Done? && Grammar.At(toks, c.next, RightParenthesis);
    PrimaryShape(toks, pos, term, a, open, c, close);
    PrimaryShape(spelled, pos, term, a, open, c, close);
  }

  /** One unfolding of the negation parser, with the primary's position named. */
  lemma NegationAt(toks: seq<Token>, pos: nat, n: nat, term: Token)
    requires pos <= |toks| && n == pos + CountNots(toks, pos)
    ensures var r := ParsePrimary(toks, n, term);
      ParseNegation(toks, pos, term) == if r.Done? then Done(WrapNots(r.value, n - pos), r.next) else Fail
  {
  }

  lemma {:induction false} NegationRespelled(toks: seq<Token>, spelled: seq<Token>, pos: nat, term: Token)
    requires pos <= |toks| && NoCompound(toks)
    requires SpelledAs(toks, spelled)
    ensures ParseNegation(spelled, pos, term) == ParseNegation(toks, pos, term)
    decreases |toks| - pos, 5
  {
    NotsRespelled(toks, spelled, pos);
    var n := pos + CountNots(toks, pos);
    PrimaryRespelled(toks, spelled, n, term);
    NegationAt(toks, pos, n, term);
    NegationAt(spelled, pos, n, term);
  }

  lemma {:induction false} ConjunctionTailRespelled(toks: seq<Token>, spelled: seq<Token>, pos: nat, term: Token)
    requires pos <= |toks| && NoCompound(toks)
    requires SpelledAs(toks, spelled)
    ensures ConjunctionTail(spelled, pos, term) == ConjunctionTail(toks, pos, term)
    decreases |toks| - pos, 6
  {
    var sep := pos < |toks| && (toks[pos] == And || toks[pos] == Comma);
    var c: Parsed<Condition> := Fail;
    var rest: Parsed<seq<Condition>> := Fail;
    if sep {
      NegationRespelled(toks, spelled, pos + 1, term);
      c := ParseNegation(toks, pos + 1, term);
      if c.Done? {
        ConjunctionTailRespelled(toks, spelled, c.next, term);
        rest := ConjunctionTail(toks, c.next, term);
      }
    }
    ConjunctionTailShape(toks, pos, term, sep, c, rest);
    ConjunctionTailShape(spelled, pos, term, sep, c, rest);
  }

  lemma {:induction false} ConjunctionRespelled(toks: seq<Token>, spelled: seq<Token>, pos: nat, term: Token)
    requires pos <= |toks| && NoCompound(toks)
    requires SpelledAs(toks, spelled)
    ensures ParseConjunction(spelled, pos, term) == ParseConjunction(toks, pos, term)
    decreases |toks| - pos, 6
  {
    NegationRespelled(toks, spelled, pos, term);
    var r := ParseNegation(toks, pos, term);
    if r.Done? {
      ConjunctionTailRespelled(toks, spelled, r.next, term);
    }
  }

  lemma {:induction false} DisjunctionTailRespelled(toks: seq<Token>, spelled: seq<Token>, pos: nat, term: Token)
    requires pos <= |toks| && NoCompound(toks)
    requires SpelledAs(toks, spelled)
    ensures DisjunctionTail(spelled, pos, term) == DisjunctionTail(toks, pos, term)
    decreases |toks| - pos, 7
  {
    var sep := pos < |toks| && (toks[pos] == Or || toks[pos] == Semicolon);
    var c: Parsed<Condition> := Fail;
    var rest: Parsed<seq<Condition>> := Fail;
    if sep {
      ConjunctionRespelled(toks, spelled, pos + 1, term);
      c := ParseConjunction(toks, pos + 1, term);
      if c.Done? {
        DisjunctionTailRespelled(toks, spelled, c.next, term);
        rest := DisjunctionTail(toks, c.next, term);
      }
    }
    DisjunctionTailShape(toks, pos, term, sep, c, rest);
    DisjunctionTailShape(spelled, pos, term, sep, c, rest);
  }

  lemma {:induction false} ConditionRespelled(toks: seq<Token>, spelled: seq<Token>, pos: nat, term: Token)
    requires pos <= |toks| && NoCompound(toks)
    requires SpelledAs(toks, spelled)
    ensures ParseCondition(spelled, pos, term) == ParseCondition(toks, pos, term)
    decreases |toks| - pos, 7
  {
    ConjunctionRespelled(toks, spelled, pos, term);
    var r := ParseConjunction(toks, pos, term);
    if r.Done? {
      DisjunctionTailRespelled(toks, spelled, r.next, term);
    }
  }

  /** Outside compounds, writing `,` for `and` or `;` for `or` does not change how a condition parses. */
  lemma SymbolSeparators(toks: seq<Token>, term: Token)
    requires NoCompound(toks)
    ensures ConditionOf(RespellCondition(toks), term) == ConditionOf(toks, term)
  {
    ConditionRespelled(toks, RespellCondition(toks), 0, term);
  }
}
