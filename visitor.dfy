/**
 * The pre-order traversal of the syntax tree (crates/cl0_node/src/visitor.rs).
 * `visit` calls its callback on a node before any of its children; here the
 * traversal is a function that returns the nodes in the order the callback
 * sees them.
 */
module Visitor {
  import opened Wrappers
  import opened Ast

  /** A node of any of the syntax tree's types, as the callback receives it. */
  datatype AstNode =
    | ConditionNode(condition: Condition)
    | PrimitiveNode(primitive: PrimitiveCondition)
    | AtomicNode(atomic: AtomicCondition)
    | ActionListNode(list: ActionList)
    | EventNode(event: PrimitiveEvent)
    | ActionNode(action: Action)
    | ReactiveNode(reactive: ReactiveRule)
    | DeclarativeNode(declarative: DeclarativeRule)
    | CaseNode(caseRule: CaseRule)
    | FactNode(fact: FactRule)
    | RuleNode(rule: Rule)
    | CompoundNode(compound: Compound)

  // ------------------------------------------------------------ traversal

  function VisitCondition(c: Condition): (r: seq<AstNode>)
    ensures |r| > 0 && r[0] == ConditionNode(c)
    decreases c
  {
    [ConditionNode(c)] +
      match c
      case Atomic(ac) => VisitAtomic(ac)
      case Not(x) => VisitCondition(x)
      case Conjunction(cs) => VisitConditions(cs)
      case Disjunction(cs) => VisitConditions(cs)
      case Parentheses(x) => VisitCondition(x)
  }

  /** The conditions of a list, each visited whole, left to right. */
  function VisitConditions(cs: seq<Condition>): seq<AstNode>
    decreases cs
  {
    if |cs| == 0 then [] else VisitCondition(cs[0]) + VisitConditions(cs[1..])
  }

  function VisitPrimitive(p: PrimitiveCondition): (r: seq<AstNode>)
    ensures r == [PrimitiveNode(p)]
  {
    [PrimitiveNode(p)]
  }

  /** A sub-compound visits its inner condition; its namespace is a string, not a node. */
  function VisitAtomic(ac: AtomicCondition): (r: seq<AstNode>)
    ensures |r| > 0 && r[0] == AtomicNode(ac)
    decreases ac
  {
    [AtomicNode(ac)] +
      match ac
      case Primitive(p) => VisitPrimitive(p)
      case Compound(cp) => VisitCompound(cp)
      case SubCompound(_, inner) => VisitAtomic(inner)
  }

  function VisitCompound(cp: Compound): (r: seq<AstNode>)
    ensures |r| > 0 && r[0] == CompoundNode(cp)
    decreases cp
  {
    [CompoundNode(cp)] + VisitRules(cp.rules)
  }

  function VisitRules(rs: seq<Rule>): seq<AstNode>
    decreases rs
  {
    if |rs| == 0 then [] else VisitRule(rs[0]) + VisitRules(rs[1..])
  }

  function VisitActionList(l: ActionList): (r: seq<AstNode>)
    ensures |r| > 0 && r[0] == ActionListNode(l)
    decreases l
  {
    [ActionListNode(l)] + VisitActions(l.actions)
  }

  function VisitActions(acts: seq<Action>): seq<AstNode>
    decreases acts
  {
    if |acts| == 0 then [] else VisitAction(acts[0]) + VisitActions(acts[1..])
  }

  /** A trigger visits only itself; a production or consumption also visits its condition. */
  function VisitEvent(e: PrimitiveEvent): (r: seq<AstNode>)
    ensures |r| > 0 && r[0] == EventNode(e)
    ensures e.Trigger? ==> r == [EventNode(e)]
    decreases e
  {
    [EventNode(e)] +
      match e
      case Trigger(_) => []
      case Production(ac) => VisitAtomic(ac)
      case Consumption(ac) => VisitAtomic(ac)
  }

  function VisitAction(a: Action): (r: seq<AstNode>)
    ensures |r| > 0 && r[0] == ActionNode(a)
    decreases a
  {
    [ActionNode(a)] +
      match a
      case Primitive(e) => VisitEvent(e)
      case List(l) => VisitActionList(l)
  }

  /** A present guard or premise is visited; an absent one contributes nothing. */
  function VisitOptional(c: Option<Condition>): (r: seq<AstNode>)
    ensures c.None? <==> r == []
    decreases c
  {
    match c
    case None => []
    case Some(x) => VisitCondition(x)
  }

  /** ECA: event, guard, action; CA: condition, action. */
  function VisitReactive(rr: ReactiveRule): (r: seq<AstNode>)
    ensures |r| > 0 && r[0] == ReactiveNode(rr)
    decreases rr
  {
    [ReactiveNode(rr)] +
      match rr
      case ECA(e, g, a) => VisitEvent(e) + VisitOptional(g) + VisitAction(a)
      case CA(c, a) => VisitCondition(c) + VisitAction(a)
  }

  /** Premise when present, then the conclusion. */
  function VisitDeclarative(d: DeclarativeRule): (r: seq<AstNode>)
    ensures |r| > 0 && r[0] == DeclarativeNode(d)
    decreases d
  {
    [DeclarativeNode(d)] +
      match d
      case CC(p, atom) => VisitOptional(p) + VisitAtomic(atom)
      case CT(p, c) => VisitOptional(p) + VisitCondition(c)
  }

  function VisitRule(rule: Rule): (r: seq<AstNode>)
    ensures |r| > 0 && r[0] == RuleNode(rule)
    decreases rule
  {
    [RuleNode(rule)] +
      match rule
      case Reactive(rr) => VisitReactive(rr)
      case Declarative(d) => VisitDeclarative(d)
      case Case(cr) => [CaseNode(cr)] + VisitAction(cr.action)
      case Fact(fr) => [FactNode(fr)] + VisitAtomic(fr.condition)
  }

  // ------------------------------------ the atomic conditions of a tree

  /**
   * Every atomic condition that occurs in a tree, defined by structure:
   * those in conditions, in produced and consumed conditions, in rule
   * conclusions and facts, and nested in compounds and sub-compounds.
   */
  function AtomicsOfCondition(c: Condition): set<AtomicCondition>
    decreases c
  {
    match c
    case Atomic(ac) => AtomicsOfAtomic(ac)
    case Not(x) => AtomicsOfCondition(x)
    case Conjunction(cs) => AtomicsOfConditions(cs)
    case Disjunction(cs) => AtomicsOfConditions(cs)
    case Parentheses(x) => AtomicsOfCondition(x)
  }

  function AtomicsOfConditions(cs: seq<Condition>): set<AtomicCondition>
    decreases cs
  {
    if |cs| == 0 then {} else AtomicsOfCondition(cs[0]) + AtomicsOfConditions(cs[1..])
  }

  function AtomicsOfAtomic(ac: AtomicCondition): set<AtomicCondition>
    decreases ac
  {
    {ac} +
      match ac
      case Primitive(_) => {}
      case Compound(cp) => AtomicsOfRules(cp.rules)
      case SubCompound(_, inner) => AtomicsOfAtomic(inner)
  }

  function AtomicsOfRules(rs: seq<Rule>): set<AtomicCondition>
    decreases rs
  {
    if |rs| == 0 then {} else AtomicsOfRule(rs[0]) + AtomicsOfRules(rs[1..])
  }

  function AtomicsOfOptional(c: Option<Condition>): set<AtomicCondition>
    decreases c
  {
    if c.None? then {} else AtomicsOfCondition(c.value)
  }

  function AtomicsOfEvent(e: PrimitiveEvent): set<AtomicCondition>
    decreases e
  {
    match e
    case Trigger(_) => {}
    case Production(ac) => AtomicsOfAtomic(ac)
    case Consumption(ac) => AtomicsOfAtomic(ac)
  }

  function AtomicsOfAction(a: Action): set<AtomicCondition>
    decreases a
  {
    match a
    case Primitive(e) => AtomicsOfEvent(e)
    case List(l) => AtomicsOfActions(l.actions)
  }

  function AtomicsOfActions(acts: seq<Action>): set<AtomicCondition>
    decreases acts
  {
    if |acts| == 0 then {} else AtomicsOfAction(acts[0]) + AtomicsOfActions(acts[1..])
  }

  function AtomicsOfRule(rule: Rule): set<AtomicCondition>
    decreases rule
  {
    match rule
    case Reactive(ECA(e, g, a)) => AtomicsOfEvent(e) + AtomicsOfOptional(g) + AtomicsOfAction(a)
    case Reactive(CA(c, a)) => AtomicsOfCondition(c) + AtomicsOfAction(a)
    case Declarative(CC(p, atom)) => AtomicsOfOptional(p) + AtomicsOfAtomic(atom)
    case Declarative(CT(p, c)) => AtomicsOfOptional(p) + AtomicsOfCondition(c)
    case Case(cr) => AtomicsOfAction(cr.action)
    case Fact(fr) => AtomicsOfAtomic(fr.condition)
  }

  // ----------------------- the traversal meets every atomic condition

  lemma {:induction false} ConditionAtomics(c: Condition, x: AtomicCondition)
    ensures AtomicNode(x) in VisitCondition(c) <==> x in AtomicsOfCondition(c)
    decreases c
  {
    match c
    case Atomic(ac) => AtomicAtomics(ac, x);
    case Not(y) => ConditionAtomics(y, x);
    case Conjunction(cs) => ConditionsAtomics(cs, x);
    case Disjunction(cs) => ConditionsAtomics(cs, x);
    case Parentheses(y) => ConditionAtomics(y, x);
  }

  lemma {:induction false} ConditionsAtomics(cs: seq<Condition>, x: AtomicCondition)
    ensures AtomicNode(x) in VisitConditions(cs) <==> x in AtomicsOfConditions(cs)
    decreases cs
  {
    if |cs| > 0 {
      ConditionAtomics(cs[0], x);
      ConditionsAtomics(cs[1..], x);
    }
  }

  lemma {:induction false} AtomicAtomics(ac: AtomicCondition, x: AtomicCondition)
    ensures AtomicNode(x) in VisitAtomic(ac) <==> x in AtomicsOfAtomic(ac)
    decreases ac
  {
    match ac
    case Primitive(_) =>
    case Compound(cp) => RulesAtomics(cp.rules, x);
    case SubCompound(_, inner) => AtomicAtomics(inner, x);
  }

  lemma {:induction false} RulesAtomics(rs: seq<Rule>, x: AtomicCondition)
    ensures AtomicNode(x) in VisitRules(rs) <==> x in AtomicsOfRules(rs)
    decreases rs
  {
    if |rs| > 0 {
      RuleAtomics(rs[0], x);
      RulesAtomics(rs[1..], x);
    }
  }

  lemma {:induction false} OptionalAtomics(c: Option<Condition>, x: AtomicCondition)
    ensures AtomicNode(x) in VisitOptional(c) <==> x in AtomicsOfOptional(c)
    decreases c
  {
    if c.Some? {
      ConditionAtomics(c.value, x);
    }
  }

  lemma {:induction false} EventAtomics(e: PrimitiveEvent, x: AtomicCondition)
    ensures AtomicNode(x) in VisitEvent(e) <==> x in AtomicsOfEvent(e)
    decreases e
  {
    match e
    case Trigger(_) =>
    case Production(ac) => AtomicAtomics(ac, x);
    case Consumption(ac) => AtomicAtomics(ac, x);
  }

  lemma {:induction false} ActionAtomics(a: Action, x: AtomicCondition)
    ensures AtomicNode(x) in VisitAction(a) <==> x in AtomicsOfAction(a)
    decreases a
  {
    match a
    case Primitive(e) => EventAtomics(e, x);
    case List(l) => ActionsAtomics(l.actions, x);
  }

  lemma {:induction false} ActionsAtomics(acts: seq<Action>, x: AtomicCondition)
    ensures AtomicNode(x) in VisitActions(acts) <==> x in AtomicsOfActions(acts)
    decreases acts
  {
    if |acts| > 0 {
      ActionAtomics(acts[0], x);
      ActionsAtomics(acts[1..], x);
    }
  }

  /** The atomic conditions the traversal of a rule meets are exactly those that occur in it. */
  lemma {:induction false} RuleAtomics(rule: Rule, x: AtomicCondition)
    ensures AtomicNode(x) in VisitRule(rule) <==> x in AtomicsOfRule(rule)
    decreases rule
  {
    match rule
    case Reactive(ECA(e, g, a)) =>
      EventAtomics(e, x);
      OptionalAtomics(g, x);
      ActionAtomics(a, x);
    case Reactive(CA(c, a)) =>
      ConditionAtomics(c, x);
      ActionAtomics(a, x);
    case Declarative(CC(p, atom)) =>
      OptionalAtomics(p, x);
      AtomicAtomics(atom, x);
    case Declarative(CT(p, c)) =>
      OptionalAtomics(p, x);
      ConditionAtomics(c, x);
    case Case(cr) => ActionAtomics(cr.action, x);
    case Fact(fr) => AtomicAtomics(fr.condition, x);
  }

  /** The atomic conditions in a list of rules, in the order the traversal meets them. */
  function CollectAtomics(visited: seq<AstNode>): (acs: seq<AtomicCondition>)
    ensures forall x :: x in acs <==> AtomicNode(x) in visited
  {
    if |visited| == 0 then []
    else (if visited[0].AtomicNode? then [visited[0].atomic] else []) + CollectAtomics(visited[1..])
  }

  /**
   * What `new_with_rules` stores first: the atomic conditions the
   * traversal of each rule meets, rule after rule.
   */
  function AtomicsOfProgram(rs: seq<Rule>): (acs: seq<AtomicCondition>)
    ensures forall x :: x in acs <==> x in AtomicsOfRules(rs)
    decreases rs
  {
    if |rs| == 0 then []
    else
      var first := CollectAtomics(VisitRule(rs[0]));
      forall x ensures x in first <==> x in AtomicsOfRule(rs[0]) {
        RuleAtomics(rs[0], x);
      }
      first + AtomicsOfProgram(rs[1..])
  }
}
