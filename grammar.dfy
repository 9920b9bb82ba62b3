/**
 * The CL0 grammar (crates/cl0_parser/src/parser.rs) as recursive-descent
 * parsing functions over a token sequence, with the ordered-choice,
 * greedy-repetition semantics of the combinators it is written with.
 *
 * Every parser takes a position and either fails or returns its value and
 * the position after what it consumed. A failing alternative consumes
 * nothing, so the next alternative starts at the same position.
 *
 * The rule grammar is parameterised by `term`, the token that ends every
 * rule; parser.rs uses `Dot`.
 */
module Grammar {
  import opened Wrappers
  import opened Tokens
  import opened Ast

  datatype Parsed<T> = Fail | Done(value: T, next: nat)

  /** A parsed rule with the range of token positions it was read from. */
  datatype RuleSpan = RuleSpan(rule: Rule, start: nat, end: nat)

  /** The rule terminator parser.rs expects. */
  const RuleEnd: Token := Dot

  predicate At(toks: seq<Token>, pos: nat, t: Token)
  {
    pos < |toks| && toks[pos] == t
  }

  predicate DescriptorAt(toks: seq<Token>, pos: nat)
  {
    pos < |toks| && toks[pos].Descriptor?
  }

  /** The tokens a condition can start with. */
  predicate StartsCondition(t: Token)
  {
    t.Descriptor? || t == Token.Not || t == LeftParenthesis || t == LeftCBracket
  }

  /** The tokens a condition can end with. */
  predicate EndsCondition(t: Token)
  {
    t.Descriptor? || t == RightParenthesis || t == RightCBracket
  }

  /** The tokens a rule can start with. */
  predicate StartsRule(t: Token)
  {
    StartsCondition(t) || t in {Hash, Plus, Minus, Colon, ThinArrow, DashO, FatArrow}
  }

  function Rules(spans: seq<RuleSpan>): (rs: seq<Rule>)
    ensures |rs| == |spans| && forall k :: 0 <= k < |spans| ==> rs[k] == spans[k].rule
  {
    if |spans| == 0 then [] else [spans[0].rule] + Rules(spans[1..])
  }

  // ---------------------------------------------------------------- events

  /** `# name`, `+ name` or `- name`; produced and consumed names become primitive conditions. */
  function ParsePrimitiveEvent(toks: seq<Token>, pos: nat): (r: Parsed<PrimitiveEvent>)
    ensures r.Done? ==> r.next == pos + 2 <= |toks| && toks[pos] in {Hash, Plus, Minus}
  {
    if DescriptorAt(toks, pos + 1) then
      var name := toks[pos + 1].name;
      match toks[pos]
      case Hash => Done(Trigger(name), pos + 2)
      case Plus => Done(Production(PrimVar(name)), pos + 2)
      case Minus => Done(Consumption(PrimVar(name)), pos + 2)
      case _ => Fail
    else Fail
  }

  /** A descriptor, read as a variable. */
  function ParsePrimitiveCondition(toks: seq<Token>, pos: nat): (r: Parsed<PrimitiveCondition>)
    ensures r.Done? ==> r.next == pos + 1 <= |toks| && toks[pos] == Descriptor(r.value.name)
  {
    if DescriptorAt(toks, pos) then Done(Var(toks[pos].name), pos + 1) else Fail
  }

  // --------------------------------------------------------------- actions
  //
  // parser.rs builds actions in three levels, each one the level below
  // repeated with `separated_by`, a trailing separator allowed, at least one
  // item, and a one-item group collapsed to its item. The levels are
  // numbered: parallel groups of events, alternatives of parallel groups,
  // sequences of alternatives.

  const ParallelLevel: nat := 0
  const AlternativeLevel: nat := 1
  const SequenceLevel: nat := 2

  /** The separators of a level: `,`/`par`, `alt`, `;`/`seq`. */
  predicate IsSeparator(level: nat, t: Token)
  {
    if level == ParallelLevel then t == Comma || t == Par
    else if level == AlternativeLevel then t == Alt
    else t == Semicolon || t == Seq
  }

  /** The list kind a level builds. */
  function ListOf(level: nat, items: seq<Action>): ActionList
  {
    if level == ParallelLevel then Parallel(items)
    else if level == AlternativeLevel then Alternative(items)
    else Sequence(items)
  }

  /** A group of one action is that action; a longer group is a list. */
  function MakeGroup(level: nat, items: seq<Action>): Action
    requires |items| > 0
  {
    if |items| == 1 then items[0] else Action.List(ListOf(level, items))
  }

  /** One item of a level: an event at the bottom, a group of the level below otherwise. */
  function ParseItem(toks: seq<Token>, pos: nat, level: nat): (r: Parsed<Action>)
    ensures r.Done? ==> pos < r.next <= |toks| && toks[pos] in {Hash, Plus, Minus}
    decreases |toks| - pos, level, 0
  {
    if level == 0 then
      match ParsePrimitiveEvent(toks, pos)
      case Done(e, n) => Done(Action.Primitive(e), n)
      case Fail => Fail
    else ParseGroup(toks, pos, level - 1)
  }

  /** Further `separator item` pairs; a trailing separator is consumed. */
  function GroupTail(toks: seq<Token>, pos: nat, level: nat, acc: seq<Action>): (r: Parsed<seq<Action>>)
    requires pos <= |toks|
    ensures r.Done? && pos <= r.next <= |toks| && |r.value| >= |acc|
    decreases |toks| - pos, level, 2
  {
    if pos < |toks| && IsSeparator(level, toks[pos]) then
      match ParseItem(toks, pos + 1, level)
      case Done(a, n) => GroupTail(toks, n, level, acc + [a])
      case Fail => Done(acc, pos + 1)
    else Done(acc, pos)
  }

  /** One or more items of a level, separated by its separators. */
  function ParseGroup(toks: seq<Token>, pos: nat, level: nat): (r: Parsed<Action>)
    ensures r.Done? ==> pos < r.next <= |toks| && toks[pos] in {Hash, Plus, Minus}
    decreases |toks| - pos, level, 1
  {
    match ParseItem(toks, pos, level)
    case Fail => Fail
    case Done(a, n) =>
      var items := GroupTail(toks, n, level, [a]);
      Done(MakeGroup(level, items.value), items.next)
  }

  /** An action: sequences of alternatives of parallel groups of events. */
  function ParseAction(toks: seq<Token>, pos: nat): (r: Parsed<Action>)
    ensures r.Done? ==> pos < r.next <= |toks| && toks[pos] in {Hash, Plus, Minus}
  {
    ParseGroup(toks, pos, SequenceLevel)
  }

  // ------------------------------------------------- conditions and rules

  /** The number of consecutive `not` tokens from `pos`. */
  function CountNots(toks: seq<Token>, pos: nat): (k: nat)
    requires pos <= |toks|
    ensures pos + k <= |toks|
    ensures k > 0 ==> toks[pos] == Token.Not
    ensures pos + k < |toks| ==> toks[pos + k] != Token.Not
    decreases |toks| - pos
  {
    if At(toks, pos, Token.Not) then 1 + CountNots(toks, pos + 1) else 0
  }

  function WrapNots(c: Condition, k: nat): Condition
  {
    if k == 0 then c else Condition.Not(WrapNots(c, k - 1))
  }

  function MakeConjunction(items: seq<Condition>): Condition
    requires |items| > 0
  {
    if |items| == 1 then items[0] else Conjunction(items)
  }

  function MakeDisjunction(items: seq<Condition>): Condition
    requires |items| > 0
  {
    if |items| == 1 then items[0] else Disjunction(items)
  }

  /** Zero or more rules, as many as parse. */
  function ParseRules(toks: seq<Token>, pos: nat, term: Token): (r: Parsed<seq<RuleSpan>>)
    requires pos <= |toks|
    ensures r.Done? && pos <= r.next <= |toks|
    decreases |toks| - pos, 11
  {
    match ParseRule(toks, pos, term)
    case Fail => Done([], pos)
    case Done(rule, n) =>
      var rest := ParseRules(toks, n, term);
      Done([RuleSpan(rule, pos, n)] + rest.value, rest.next)
  }

  /** A rule: reactive (ECA, then CA), then declarative (CC, then CT), then case, then fact. */
  function ParseRule(toks: seq<Token>, pos: nat, term: Token): (r: Parsed<Rule>)
    requires pos <= |toks|
    ensures r.Done? ==> pos < r.next <= |toks| && toks[r.next - 1] == term && StartsRule(toks[pos])
    decreases |toks| - pos, 10
  {
    var eca := ParseEca(toks, pos, term);
    if eca.Done? then eca else
    var ca := ParseCa(toks, pos, term);
    if ca.Done? then ca else
    var cc := ParseCc(toks, pos, term);
    if cc.Done? then cc else
    var ct := ParseCt(toks, pos, term);
    if ct.Done? then ct else
    var caseRule := ParseCaseRule(toks, pos, term);
    if caseRule.Done? then caseRule else
    ParseFact(toks, pos, term)
  }

  /** The optional `: condition` of an ECA rule; without it nothing is consumed. */
  function ParseGuard(toks: seq<Token>, pos: nat, term: Token): (r: (Option<Condition>, nat))
    requires pos <= |toks|
    ensures pos <= r.1 <= |toks|
    decreases |toks| - pos, 8
  {
    if At(toks, pos, Colon) then
      match ParseCondition(toks, pos + 1, term)
      case Done(c, n) => (Some(c), n)
      case Fail => (None, pos)
    else (None, pos)
  }

  /** An optional premise condition; without it nothing is consumed. */
  function ParsePremise(toks: seq<Token>, pos: nat, term: Token): (r: (Option<Condition>, nat))
    requires pos <= |toks|
    ensures pos <= r.1 <= |toks|
    ensures r.0.None? ==> r.1 == pos
    ensures r.0.Some? ==> pos < |toks| && StartsCondition(toks[pos])
    decreases |toks| - pos, 8
  {
    match ParseCondition(toks, pos, term)
    case Done(c, n) => (Some(c), n)
    case Fail => (None, pos)
  }

  /** `event [: condition] => action` then the terminator. */
  function ParseEca(toks: seq<Token>, pos: nat, term: Token): (r: Parsed<Rule>)
    requires pos <= |toks|
    ensures r.Done? ==> pos < r.next <= |toks| && toks[r.next - 1] == term && toks[pos] in {Hash, Plus, Minus}
    decreases |toks| - pos, 9
  {
    match ParsePrimitiveEvent(toks, pos)
    case Fail => Fail
    case Done(event, p1) =>
      var guard := ParseGuard(toks, p1, term);
      if At(toks, guard.1, FatArrow) then
        match ParseAction(toks, guard.1 + 1)
        case Fail => Fail
        case Done(a, p3) =>
          if At(toks, p3, term) then Done(Rule.Reactive(ECA(event, guard.0, a)), p3 + 1) else Fail
      else Fail
  }

  /** `: condition => action` then the terminator. */
  function ParseCa(toks: seq<Token>, pos: nat, term: Token): (r: Parsed<Rule>)
    requires pos <= |toks|
    ensures r.Done? ==> pos < r.next <= |toks| && toks[r.next - 1] == term && toks[pos] == Colon
    decreases |toks| - pos, 9
  {
    if At(toks, pos, Colon) then
      match ParseCondition(toks, pos + 1, term)
      case Fail => Fail
      case Done(c, p1) =>
        if At(toks, p1, FatArrow) then
          match ParseAction(toks, p1 + 1)
          case Fail => Fail
          case Done(a, p2) =>
            if At(toks, p2, term) then Done(Rule.Reactive(CA(c, a)), p2 + 1) else Fail
        else Fail
    else Fail
  }

  /** `[premise] -> atomic` then the terminator. */
  function ParseCc(toks: seq<Token>, pos: nat, term: Token): (r: Parsed<Rule>)
    requires pos <= |toks|
    ensures r.Done? ==> pos < r.next <= |toks| && toks[r.next - 1] == term && (StartsCondition(toks[pos]) || toks[pos] == ThinArrow)
    decreases |toks| - pos, 9
  {
    var premise := ParsePremise(toks, pos, term);
    if At(toks, premise.1, ThinArrow) then
      match ParseAtomic(toks, premise.1 + 1, term)
      case Fail => Fail
      case Done(atom, p2) =>
        if At(toks, p2, term) then Done(Rule.Declarative(CC(premise.0, atom)), p2 + 1) else Fail
    else Fail
  }

  /** `[premise] -o condition` then the terminator. */
  function ParseCt(toks: seq<Token>, pos: nat, term: Token): (r: Parsed<Rule>)
    requires pos <= |toks|
    ensures r.Done? ==> pos < r.next <= |toks| && toks[r.next - 1] == term && (StartsCondition(toks[pos]) || toks[pos] == DashO)
    decreases |toks| - pos, 9
  {
    var premise := ParsePremise(toks, pos, term);
    if At(toks, premise.1, DashO) then
      match ParseCondition(toks, premise.1 + 1, term)
      case Fail => Fail
      case Done(c, p2) =>
        if At(toks, p2, term) then Done(Rule.Declarative(CT(premise.0, c)), p2 + 1) else Fail
    else Fail
  }

  /** `=> action` then the terminator. */
  function ParseCaseRule(toks: seq<Token>, pos: nat, term: Token): (r: Parsed<Rule>)
    requires pos <= |toks|
    ensures r.Done? ==> pos < r.next <= |toks| && toks[r.next - 1] == term && toks[pos] == FatArrow
    decreases |toks| - pos, 9
  {
    if At(toks, pos, FatArrow) then
      match ParseAction(toks, pos + 1)
      case Fail => Fail
      case Done(a, p1) =>
        if At(toks, p1, term) then Done(Rule.Case(CaseRule(a)), p1 + 1) else Fail
    else Fail
  }

  /** An atomic condition then the terminator. */
  function ParseFact(toks: seq<Token>, pos: nat, term: Token): (r: Parsed<Rule>)
    requires pos <= |toks|
    ensures r.Done? ==> pos < r.next <= |toks| && toks[r.next - 1] == term && StartsCondition(toks[pos])
    decreases |toks| - pos, 9
  {
    match ParseAtomic(toks, pos, term)
    case Fail => Fail
    case Done(atom, p1) =>
      if At(toks, p1, term) then Done(Rule.Fact(FactRule(atom)), p1 + 1) else Fail
  }

  /** Conjunctions separated by `or` or `;`, with no trailing separator. */
  function ParseCondition(toks: seq<Token>, pos: nat, term: Token): (r: Parsed<Condition>)
    requires pos <= |toks|
    ensures r.Done? ==> pos < r.next <= |toks| && StartsCondition(toks[pos])
    ensures r.Done? ==> EndsCondition(toks[r.next - 1])
    decreases |toks| - pos, 7
  {
    match ParseConjunction(toks, pos, term)
    case Fail => Fail
    case Done(c, n) =>
      var items := DisjunctionTail(toks, n, term);
      Done(MakeDisjunction([c] + items.value), items.next)
  }

  /** The items after the first, each after a separator. */
  function DisjunctionTail(toks: seq<Token>, pos: nat, term: Token): (r: Parsed<seq<Condition>>)
    requires pos <= |toks|
    ensures r.Done? && pos <= r.next <= |toks|
    ensures r.next == pos || EndsCondition(toks[r.next - 1])
    decreases |toks| - pos, 7
  {
    if pos < |toks| && (toks[pos] == Or || toks[pos] == Semicolon) then
      match ParseConjunction(toks, pos + 1, term)
      case Done(c, n) =>
        var rest := DisjunctionTail(toks, n, term);
        Done([c] + rest.value, rest.next)
      case Fail => Done([], pos)
    else Done([], pos)
  }

  /** Negations separated by `and` or `,`, with no trailing separator. */
  function ParseConjunction(toks: seq<Token>, pos: nat, term: Token): (r: Parsed<Condition>)
    requires pos <= |toks|
    ensures r.Done? ==> pos < r.next <= |toks| && StartsCondition(toks[pos])
    ensures r.Done? ==> EndsCondition(toks[r.next - 1])
    decreases |toks| - pos, 6
  {
    match ParseNegation(toks, pos, term)
    case Fail => Fail
    case Done(c, n) =>
      var items := ConjunctionTail(toks, n, term);
      Done(MakeConjunction([c] + items.value), items.next)
  }

  /** The items after the first, each after a separator. */
  function ConjunctionTail(toks: seq<Token>, pos: nat, term: Token): (r: Parsed<seq<Condition>>)
    requires pos <= |toks|
    ensures r.Done? && pos <= r.next <= |toks|
    ensures r.next == pos || EndsCondition(toks[r.next - 1])
    decreases |toks| - pos, 6
  {
    if pos < |toks| && (toks[pos] == And || toks[pos] == Comma) then
      match ParseNegation(toks, pos + 1, term)
      case Done(c, n) =>
        var rest := ConjunctionTail(toks, n, term);
        Done([c] + rest.value, rest.next)
      case Fail => Done([], pos)
    else Done([], pos)
  }

  /** Any number of `not` before a primary, each wrapping it once. */
  function ParseNegation(toks: seq<Token>, pos: nat, term: Token): (r: Parsed<Condition>)
    requires pos <= |toks|
    ensures r.Done? ==> pos < r.next <= |toks| && StartsCondition(toks[pos])
    ensures r.Done? ==> EndsCondition(toks[r.next - 1])
    decreases |toks| - pos, 5
  {
    var k := CountNots(toks, pos);
    match ParsePrimary(toks, pos + k, term)
    case Fail => Fail
    case Done(c, n) => Done(WrapNots(c, k), n)
  }

  /** An atomic condition, or a parenthesised condition. */
  function ParsePrimary(toks: seq<Token>, pos: nat, term: Token): (r: Parsed<Condition>)
    requires pos <= |toks|
    ensures r.Done? ==> pos < r.next <= |toks| && StartsCondition(toks[pos]) && toks[pos] != Token.Not
    ensures r.Done? ==> EndsCondition(toks[r.next - 1])
    decreases |toks| - pos, 4
  {
    match ParseAtomic(toks, pos, term)
    case Done(a, n) => Done(Atomic(a), n)
    case Fail =>
      if At(toks, pos, LeftParenthesis) then
        match ParseCondition(toks, pos + 1, term)
        case Fail => Fail
        case Done(c, n) =>
          if At(toks, n, RightParenthesis) then Done(Parentheses(c), n + 1) else Fail
      else Fail
  }

  /** A descriptor, or a compound. */
  function ParseAtomic(toks: seq<Token>, pos: nat, term: Token): (r: Parsed<AtomicCondition>)
    requires pos <= |toks|
    ensures r.Done? ==> pos < r.next <= |toks| && (toks[pos].Descriptor? || toks[pos] == LeftCBracket)
    ensures r.Done? ==> EndsCondition(toks[r.next - 1])
    decreases |toks| - pos, 3
  {
    if DescriptorAt(toks, pos) then Done(PrimVar(toks[pos].name), pos + 1)
    else
      match ParseCompound(toks, pos, term)
      case Fail => Fail
      case Done(c, n) => Done(AtomicCondition.Compound(c), n)
  }

  /** `{` rules `}` with an optional `as` alias. */
  function ParseCompound(toks: seq<Token>, pos: nat, term: Token): (r: Parsed<Compound>)
    requires pos <= |toks|
    ensures r.Done? ==> pos < r.next <= |toks| && toks[pos] == LeftCBracket
    ensures r.Done? ==> EndsCondition(toks[r.next - 1])
    decreases |toks| - pos, 2
  {
    if At(toks, pos, LeftCBracket) then
      var body := ParseRules(toks, pos + 1, term);
      var close := body.next;
      if At(toks, close, RightCBracket) then
        if At(toks, close + 1, As) && DescriptorAt(toks, close + 2) then
          Done(Compound.Compound(Rules(body.value), Some(toks[close + 2].name)), close + 3)
        else
          Done(Compound.Compound(Rules(body.value), None), close + 1)
      else Fail
    else Fail
  }

  // ------------------------------------------------------- whole inputs

  /** A parser applied to a whole token sequence: it must consume every token. */
  function Whole<T>(r: Parsed<T>, toks: seq<Token>): Option<T>
  {
    if r.Done? && r.next == |toks| then Some(r.value) else None
  }

  function ActionOf(toks: seq<Token>): Option<Action>
  {
    Whole(ParseAction(toks, 0), toks)
  }

  function PrimitiveEventOf(toks: seq<Token>): Option<PrimitiveEvent>
  {
    Whole(ParsePrimitiveEvent(toks, 0), toks)
  }

  function PrimitiveConditionOf(toks: seq<Token>): Option<PrimitiveCondition>
  {
    Whole(ParsePrimitiveCondition(toks, 0), toks)
  }

  function ConditionOf(toks: seq<Token>, term: Token): Option<Condition>
  {
    Whole(ParseCondition(toks, 0, term), toks)
  }

  function AtomicOf(toks: seq<Token>, term: Token): Option<AtomicCondition>
  {
    Whole(ParseAtomic(toks, 0, term), toks)
  }

  function CompoundOf(toks: seq<Token>, term: Token): Option<Compound>
  {
    Whole(ParseCompound(toks, 0, term), toks)
  }

  function RuleOf(toks: seq<Token>, term: Token): Option<Rule>
  {
    Whole(ParseRule(toks, 0, term), toks)
  }

  /** A program: rules until the end of input, each with its token range. */
  function ProgramOf(toks: seq<Token>, term: Token): Option<seq<RuleSpan>>
  {
    Whole(ParseRules(toks, 0, term), toks)
  }
}
