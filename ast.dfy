/**
 * The abstract syntax tree of CL0 (crates/cl0_parser/src/ast.rs): conditions,
 * actions, the four kinds of rule and compounds, which are lists of rules
 * with an optional alias.
 */
module Ast {
  import opened Wrappers

  /** A named variable of the knowledge base. */
  datatype PrimitiveCondition = Var(name: string)

  datatype AtomicCondition =
    | Compound(compound: Compound)
    | Primitive(primitive: PrimitiveCondition)
    | SubCompound(namespace: string, condition: AtomicCondition)

  datatype Condition =
    | Atomic(atomic: AtomicCondition)
    | Not(operand: Condition)
    | Conjunction(conjuncts: seq<Condition>)
    | Disjunction(disjuncts: seq<Condition>)
    | Parentheses(inner: Condition)

  datatype ActionList =
    | Sequence(actions: seq<Action>)
    | Parallel(actions: seq<Action>)
    | Alternative(actions: seq<Action>)

  datatype PrimitiveEvent =
    | Trigger(name: string)
    | Production(produced: AtomicCondition)
    | Consumption(consumed: AtomicCondition)

  datatype Action =
    | Primitive(event: PrimitiveEvent)
    | List(list: ActionList)

  /** Event-condition-action and condition-action rules. */
  datatype ReactiveRule =
    | ECA(event: PrimitiveEvent, guard: Option<Condition>, action: Action)
    | CA(condition: Condition, action: Action)

  /** `premise -> atom` and `premise -o condition` rules. */
  datatype DeclarativeRule =
    | CC(premise: Option<Condition>, atom: AtomicCondition)
    | CT(premise: Option<Condition>, consequence: Condition)

  datatype CaseRule = CaseRule(action: Action)

  datatype FactRule = FactRule(condition: AtomicCondition)

  datatype Rule =
    | Reactive(reactive: ReactiveRule)
    | Declarative(declarative: DeclarativeRule)
    | Case(caseRule: CaseRule)
    | Fact(fact: FactRule)

  datatype Compound = Compound(rules: seq<Rule>, alias: Option<string>)

  function PrimVar(name: string): AtomicCondition
  {
    AtomicCondition.Primitive(Var(name))
  }
}
