/**
 * A printer from syntax trees back to tokens, the inverse partner of the
 * grammar. The trees the grammar can produce are the well-formed ones:
 * groups of at least two items whose items sit one precedence level lower,
 * production and consumption of plain variables, and no sub-compounds.
 */
module Printer {
  import opened Wrappers
  import opened Tokens
  import opened Ast
  import opened Grammar

  // ------------------------------------------------------ well-formedness

  predicate EventWF(e: PrimitiveEvent)
  {
    match e
    case Trigger(_) => true
    case Production(ac) => ac.Primitive?
    case Consumption(ac) => ac.Primitive?
  }

  /** An item of a level: a printable event at the bottom, a group of the level below otherwise. */
  predicate ItemWF(a: Action, level: nat)
    decreases a, level, 0
  {
    if level == 0 then a.Primitive? && EventWF(a.event) else GroupWF(a, level - 1)
  }

  /** An item of the level, or a list of the level's kind with at least two items. */
  predicate GroupWF(a: Action, level: nat)
    decreases a, level, 1
  {
    ItemWF(a, level)
    || (a.List? && a.list == ListOf(level, a.list.actions) && |a.list.actions| >= 2
        && forall k :: 0 <= k < |a.list.actions| ==> ItemWF(a.list.actions[k], level))
  }

  predicate ActionWF(a: Action)
  {
    GroupWF(a, SequenceLevel)
  }

  predicate ConditionWF(c: Condition)
    decreases c, 2
  {
    if c.Disjunction? then
      |c.disjuncts| >= 2 && forall k :: 0 <= k < |c.disjuncts| ==> ConjunctionWF(c.disjuncts[k])
    else ConjunctionWF(c)
  }

  predicate ConjunctionWF(c: Condition)
    decreases c, 1
  {
    if c.Conjunction? then
      |c.conjuncts| >= 2 && forall k :: 0 <= k < |c.conjuncts| ==> UnaryWF(c.conjuncts[k])
    else UnaryWF(c)
  }

  /** Negations of an atomic or parenthesised condition. */
  predicate UnaryWF(c: Condition)
    decreases c, 0
  {
    match c
    case Not(x) => UnaryWF(x)
    case Parentheses(x) => ConditionWF(x)
    case Atomic(ac) => AtomicWF(ac)
    case Conjunction(_) => false
    case Disjunction(_) => false
  }

  predicate AtomicWF(ac: AtomicCondition)
    decreases ac
  {
    match ac
    case Primitive(_) => true
    case Compound(cp) => CompoundWF(cp)
    case SubCompound(_, _) => false
  }

  predicate CompoundWF(cp: Compound)
    decreases cp
  {
    forall k :: 0 <= k < |cp.rules| ==> RuleWF(cp.rules[k])
  }

  predicate PremiseWF(p: Option<Condition>)
    decreases p
  {
    p.Some? ==> ConditionWF(p.value)
  }

  predicate RuleWF(r: Rule)
    decreases r
  {
    match r
    case Reactive(ECA(e, g, a)) => EventWF(e) && PremiseWF(g) && ActionWF(a)
    case Reactive(CA(c, a)) => ConditionWF(c) && ActionWF(a)
    case Declarative(CC(p, atom)) => PremiseWF(p) && AtomicWF(atom)
    case Declarative(CT(p, c)) => PremiseWF(p) && ConditionWF(c)
    case Case(CaseRule(a)) => ActionWF(a)
    case Fact(FactRule(atom)) => AtomicWF(atom)
  }

  // ---------------------------------------------------------------- actions
  //
  // The printers are total and choose their shape from the constructors
  // alone; on well-formed trees they print what the grammar reads back.

  /** The name a produced or consumed condition is printed with. */
  function EventName(ac: AtomicCondition): string
  {
    if ac.Primitive? then ac.primitive.name else ""
  }

  function PrintEvent(e: PrimitiveEvent): seq<Token>
  {
    match e
    case Trigger(n) => [Hash, Descriptor(n)]
    case Production(ac) => [Plus, Descriptor(EventName(ac))]
    case Consumption(ac) => [Minus, Descriptor(EventName(ac))]
  }

  /** The separator printed between the items of a level. */
  function SeparatorToken(level: nat): Token
  {
    if level == ParallelLevel then Comma else if level == AlternativeLevel then Alt else Semicolon
  }

  function PrintItem(a: Action, level: nat): seq<Token>
    decreases a, level, 0
  {
    if level == 0 then (if a.Primitive? then PrintEvent(a.event) else [])
    else PrintGroup(a, level - 1)
  }

  /** A list of the level's kind item by item, anything else as a single item. */
  function PrintGroup(a: Action, level: nat): seq<Token>
    decreases a, level, 1
  {
    if a.List? && a.list == ListOf(level, a.list.actions) && |a.list.actions| > 0 then
      PrintItem(a.list.actions[0], level) + PrintGroupRest(a.list.actions, 1, level)
    else PrintItem(a, level)
  }

  /** Items `i..` of a group, each preceded by the level's separator. */
  function PrintGroupRest(items: seq<Action>, i: nat, level: nat): seq<Token>
    requires i <= |items|
    decreases items, |items| - i, 2
  {
    if i == |items| then []
    else [SeparatorToken(level)] + PrintItem(items[i], level) + PrintGroupRest(items, i + 1, level)
  }

  function PrintAction(a: Action): seq<Token>
  {
    PrintGroup(a, SequenceLevel)
  }

  // ------------------------------------------------- conditions and rules

  function PrintCondition(c: Condition, term: Token): seq<Token>
    decreases c, 2
  {
    if c.Disjunction? && |c.disjuncts| > 0 then
      PrintConjunction(c.disjuncts[0], term) + PrintOrRest(c.disjuncts, 1, term)
    else PrintConjunction(c, term)
  }

  /** Disjuncts `i..`, each preceded by `or`. */
  function PrintOrRest(cs: seq<Condition>, i: nat, term: Token): seq<Token>
    requires i <= |cs|
    decreases cs, |cs| - i
  {
    if i == |cs| then [] else [Or] + PrintConjunction(cs[i], term) + PrintOrRest(cs, i + 1, term)
  }

  function PrintConjunction(c: Condition, term: Token): seq<Token>
    decreases c, 1
  {
    if c.Conjunction? && |c.conjuncts| > 0 then
      PrintUnary(c.conjuncts[0], term) + PrintAndRest(c.conjuncts, 1, term)
    else PrintUnary(c, term)
  }

  /** Conjuncts `i..`, each preceded by `and`. */
  function PrintAndRest(cs: seq<Condition>, i: nat, term: Token): seq<Token>
    requires i <= |cs|
    decreases cs, |cs| - i
  {
    if i == |cs| then [] else [And] + PrintUnary(cs[i], term) + PrintAndRest(cs, i + 1, term)
  }

  function PrintUnary(c: Condition, term: Token): seq<Token>
    decreases c, 0
  {
    match c
    case Not(x) => [Token.Not] + PrintUnary(x, term)
    case Parentheses(x) => [LeftParenthesis] + PrintCondition(x, term) + [RightParenthesis]
    case Atomic(ac) => PrintAtomic(ac, term)
    case Conjunction(_) => []
    case Disjunction(_) => []
  }

  function PrintAtomic(ac: AtomicCondition, term: Token): seq<Token>
    decreases ac
  {
    match ac
    case Primitive(v) => [Descriptor(v.name)]
    case Compound(cp) => PrintCompound(cp, term)
    case SubCompound(_, _) => []
  }

  function PrintAlias(alias: Option<string>): seq<Token>
  {
    match alias
    case None => []
    case Some(n) => [As, Descriptor(n)]
  }

  function PrintCompound(cp: Compound, term: Token): seq<Token>
    decreases cp
  {
    [LeftCBracket] + PrintRules(cp.rules, 0, term) + [RightCBracket] + PrintAlias(cp.alias)
  }

  /** Rules `i..`, one after another. */
  function PrintRules(rs: seq<Rule>, i: nat, term: Token): seq<Token>
    requires i <= |rs|
    decreases rs, |rs| - i
  {
    if i == |rs| then [] else PrintRule(rs[i], term) + PrintRules(rs, i + 1, term)
  }

  function PrintPremise(p: Option<Condition>, term: Token): seq<Token>
    decreases p
  {
    match p
    case None => []
    case Some(c) => PrintCondition(c, term)
  }

  function PrintGuard(g: Option<Condition>, term: Token): seq<Token>
    decreases g
  {
    match g
    case None => []
    case Some(c) => [Colon] + PrintCondition(c, term)
  }

  function PrintRule(r: Rule, term: Token): seq<Token>
    decreases r
  {
    match r
    case Reactive(ECA(e, g, a)) => PrintEvent(e) + PrintGuard(g, term) + [FatArrow] + PrintAction(a) + [term]
    case Reactive(CA(c, a)) => [Colon] + PrintCondition(c, term) + [FatArrow] + PrintAction(a) + [term]
    case Declarative(CC(p, atom)) => PrintPremise(p, term) + [ThinArrow] + PrintAtomic(atom, term) + [term]
    case Declarative(CT(p, c)) => PrintPremise(p, term) + [DashO] + PrintCondition(c, term) + [term]
    case Case(CaseRule(a)) => [FatArrow] + PrintAction(a) + [term]
    case Fact(FactRule(atom)) => PrintAtomic(atom, term) + [term]
  }

  function PrintProgram(rs: seq<Rule>, term: Token): seq<Token>
  {
    PrintRules(rs, 0, term)
  }
}
