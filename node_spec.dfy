/**
 * The rule engine of a node (crates/cl0_node/src/node.rs) as functions on
 * its state: the variable store, the alias namespaces and the registry of
 * event handlers. Condition evaluation only reads the state; storing
 * conditions, processing rules and processing actions yield the new state
 * and a result, and are what the methods of `NodeEngine.Node` are proved
 * to compute.
 *
 * Storing a compound processes its rules, a case rule processes its
 * action, and producing an alias stores a compound again, so the
 * recursion is bounded by `fuel`: every call into the engine uses one
 * unit, and running out is the error `OutOfFuel`.
 */
module NodeSpec {
  import opened Wrappers
  import opened Ast
  import opened NodeTypes
  import opened NodeUtils
  import opened Visitor

  /** An event handler, as far as the node sees it: the reactive rules registered under its identifier. */
  datatype Handler = Handler(rules: seq<ReactiveRuleWithArgs>)

  /**
   * What the node needs from code outside this model: the identifier of a
   * reactive rule, the activation state of a handler, the outcome of
   * running a handler's action, and the random choice among alternatives.
   */
  datatype Hooks = Hooks(
    identifier: ReactiveRule -> string,
    handlerState: string -> ActivationStatus,
    fire: string -> Result<bool, Failure>,
    pick: nat -> nat)

  /** The node's maps: variables, top-level alias namespaces, handlers by identifier. */
  datatype NodeState = NodeState(
    vars: map<PrimitiveCondition, ActivationStatus>,
    aliases: map<string, Namespace>,
    handlers: map<string, Handler>)

  /** The new state of an operation and what it returns. */
  type Outcome = (NodeState, Result<bool, Failure>)

  function EmptyState(): NodeState
  {
    NodeState(map[], map[], map[])
  }

  function PathOf(ns: Option<seq<string>>): seq<string>
  {
    if ns.Some? then ns.value else []
  }

  function AliasPath(alias: Option<string>): seq<string>
  {
    if alias.Some? then [alias.value] else []
  }

  // =========================================================== reading

  /** A stored variable's status; a variable never stored reads as `Conflict`. */
  function Lookup(vars: map<PrimitiveCondition, ActivationStatus>, p: PrimitiveCondition): ActivationStatus
  {
    if p in vars then vars[p] else Conflict
  }

  predicate SameRule(held: ReactiveRuleWithArgs, wanted: ReactiveRuleWithArgs)
  {
    held.rule == wanted.rule && held.alias == wanted.alias
  }

  /** The value of the first rule a handler holds with the same rule and alias. */
  function FindStatus(rules: seq<ReactiveRuleWithArgs>, wanted: ReactiveRuleWithArgs, id: string): (r: Result<ActivationStatus, Failure>)
    ensures r.Err? <==> forall k :: 0 <= k < |rules| ==> !SameRule(rules[k], wanted)
    ensures r.Err? ==> r.error == RuleNotFound(id)
    ensures r.Ok? ==> exists k :: (0 <= k < |rules| && SameRule(rules[k], wanted) && r.value == rules[k].value
      && forall j :: 0 <= j < k ==> !SameRule(rules[j], wanted))
  {
    if |rules| == 0 then Err(RuleNotFound(id))
    else if SameRule(rules[0], wanted) then Ok(rules[0].value)
    else
      var r := FindStatus(rules[1..], wanted, id);
      if r.Ok? then
        var k :| 0 <= k < |rules| - 1 && SameRule(rules[1..][k], wanted) && r.value == rules[1..][k].value
          && forall j :: 0 <= j < k ==> !SameRule(rules[1..][j], wanted);
        assert SameRule(rules[k + 1], wanted) && forall j :: 0 <= j < k + 1 ==> !SameRule(rules[j], wanted);
        r
      else r
  }

  /** `get_rule_status`: the status of a reactive rule as the handler for its identifier holds it. */
  function RuleStatus(st: NodeState, hooks: Hooks, wanted: ReactiveRuleWithArgs): Result<ActivationStatus, Failure>
  {
    var id := hooks.identifier(wanted.rule);
    if id !in st.handlers then Err(HandlerNotFound(id))
    else FindStatus(st.handlers[id].rules, wanted, id)
  }

  /** The rules of a compound that a namespace also holds, in the compound's order. */
  function Matching(rules: seq<Rule>, held: seq<Rule>): (m: seq<Rule>)
    ensures forall x :: x in m <==> x in rules && x in held
  {
    if |rules| == 0 then []
    else (if rules[0] in held then [rules[0]] else []) + Matching(rules[1..], held)
  }

  /** The statuses of the reactive rules among `rules`, stored under `path`; the first error stops it. */
  function Statuses(st: NodeState, hooks: Hooks, rules: seq<Rule>, path: seq<string>): Result<set<ActivationStatus>, Failure>
  {
    if |rules| == 0 then Ok({})
    else if rules[0].Reactive? then
      match RuleStatus(st, hooks, ReactiveRuleWithArgs(rules[0].reactive, True, Some(path)))
      case Err(e) => Err(e)
      case Ok(s) =>
        match Statuses(st, hooks, rules[1..], path)
        case Err(e) => Err(e)
        case Ok(rest) => Ok({s} + rest)
    else Statuses(st, hooks, rules[1..], path)
  }

  /**
   * `get_atomic_condition`: a variable's stored status; for a compound, the
   * overall status of its reactive rules held in the namespace its path
   * names; a sub-compound puts its namespace in front of the path.
   */
  function GetAtomic(st: NodeState, hooks: Hooks, ac: AtomicCondition, ns: Option<seq<string>>): Result<ActivationStatus, Failure>
    decreases ac
  {
    match ac
    case Primitive(p) => Ok(Lookup(st.vars, p))
    case SubCompound(namespace, inner) => GetAtomic(st, hooks, inner, Some([namespace] + PathOf(ns)))
    case Compound(cp) =>
      var path := PathOf(ns) + AliasPath(cp.alias);
      if path == [] then Err(MainNamespace)
      else if path[0] !in st.aliases then Err(NoNamespaceForAlias(path[0]))
      else
        match GetRules(st.aliases[path[0]], path[1..])
        case Err(e) => Err(e)
        case Ok(held) =>
          match Statuses(st, hooks, Matching(cp.rules, held), path)
          case Err(e) => Err(e)
          case Ok(statuses) => OverallStatusFromSet(statuses)
  }

  /**
   * `process_condition`: an atomic condition's status as a boolean (an
   * error for `Conflict`), negation, parentheses, and conjunctions and
   * disjunctions evaluated left to right.
   */
  function EvalCondition(st: NodeState, hooks: Hooks, c: Condition): Result<bool, Failure>
    decreases c
  {
    match c
    case Atomic(ac) =>
      (match GetAtomic(st, hooks, ac, None)
       case Err(e) => Err(LookupFailed(ac, e))
       case Ok(v) =>
         match ToBool(v)
         case Err(e) => Err(EvaluationFailed(ac, e))
         case Ok(b) => Ok(b))
    case Not(x) =>
      (match EvalCondition(st, hooks, x)
       case Err(e) => Err(e)
       case Ok(b) => Ok(!b))
    case Parentheses(x) => EvalCondition(st, hooks, x)
    case Conjunction(cs) => EvalConjuncts(st, hooks, cs, 0)
    case Disjunction(cs) => EvalDisjuncts(st, hooks, cs, 0)
  }

  /** The conjuncts from `i` on: stop at the first false one or the first error. */
  function EvalConjuncts(st: NodeState, hooks: Hooks, cs: seq<Condition>, i: nat): Result<bool, Failure>
    requires i <= |cs|
    decreases cs, |cs| - i
  {
    if i == |cs| then Ok(true)
    else
      match EvalCondition(st, hooks, cs[i])
      case Err(e) => Err(e)
      case Ok(b) => if !b then Ok(false) else EvalConjuncts(st, hooks, cs, i + 1)
  }

  /** The disjuncts from `i` on: stop at the first true one or the first error. */
  function EvalDisjuncts(st: NodeState, hooks: Hooks, cs: seq<Condition>, i: nat): Result<bool, Failure>
    requires i <= |cs|
    decreases cs, |cs| - i
  {
    if i == |cs| then Ok(false)
    else
      match EvalCondition(st, hooks, cs[i])
      case Err(e) => Err(e)
      case Ok(b) => if b then Ok(true) else EvalDisjuncts(st, hooks, cs, i + 1)
  }

  /**
   * `get_alias_rules` for a variable under an optional namespace path: the
   * rules at that path below the top-level namespace the path starts with.
   */
  function VarAliasRules(st: NodeState, name: string, ns: Option<seq<string>>): Result<(seq<Rule>, seq<string>), Failure>
  {
    var (head, tail, path) := GetParts(PathOf(ns) + [name]);
    if head !in st.aliases then Err(NoAliasFound)
    else
      match GetRules(st.aliases[head], tail)
      case Err(e) => Err(e)
      case Ok(rules) => Ok((rules, path))
  }

  /**
   * `get_alias_rules`: the rules and the path of the namespace an atomic
   * condition names. A compound names the rules of its own that the
   * namespace at the path holds; a sub-compound adds its namespace at the
   * end of the path.
   */
  function AliasRules(st: NodeState, ac: AtomicCondition, ns: Option<seq<string>>): Result<(seq<Rule>, seq<string>), Failure>
    requires ns.Some? ==> |ns.value| > 0
    decreases ac
  {
    match ac
    case Primitive(Var(name)) => VarAliasRules(st, name, ns)
    case SubCompound(namespace, inner) => AliasRules(st, inner, Some(PathOf(ns) + [namespace]))
    case Compound(cp) =>
      if ns.None? then Err(NoAliasFound)
      else
        var path := ns.value;
        var main := path[..|path| - 1];
        match VarAliasRules(st, path[|path| - 1], if main == [] then None else Some(main))
        case Err(e) => Err(e)
        case Ok((held, full)) => Ok((Matching(cp.rules, held), full))
  }

  // ====================================================== changing state

  /** `update_var`: refuses `Conflict`; otherwise stores the status. */
  function UpdateVarSpec(st: NodeState, p: PrimitiveCondition, value: ActivationStatus): Outcome
  {
    if value == Conflict then (st, Err(UnknownUpdate))
    else (st.(vars := st.vars[p := value]), Ok(true))
  }

  /** A compound's rules under `path` are created in the top-level namespace the path starts with. */
  function StoreRules(st: NodeState, path: seq<string>, rules: seq<Rule>, overrideEntries: bool): NodeState
    requires |path| > 0
  {
    var child := if path[0] in st.aliases then st.aliases[path[0]] else NewNamespace();
    st.(aliases := st.aliases[path[0] := Created(child, path[1..], rules, overrideEntries)])
  }

  /**
   * The rules of a stored compound with their arguments: reactive rules
   * with the stored value and path, facts with the stored value; case
   * rules are left for later and a declarative rule is refused.
   */
  function CompoundArgs(rules: seq<Rule>, value: ActivationStatus, path: Option<seq<string>>): (r: Result<seq<RuleWithArgs>, Failure>)
    ensures r.Err? <==> exists k :: 0 <= k < |rules| && rules[k].Declarative?
    ensures r.Ok? ==> forall x :: x in r.value <==> (ToRule(x) in rules && !x.Case?
      && (x.Fact? ==> x.fact.value == Some(value))
      && (x.Reactive? ==> x.reactive.value == value && x.reactive.alias == path))
  {
    if |rules| == 0 then Ok([])
    else
      var rest := CompoundArgs(rules[1..], value, path);
      match rules[0]
      case Declarative(_) => Err(UnsupportedRule(rules[0]))
      case Case(_) => rest
      case Fact(fr) => if rest.Err? then rest else Ok([RuleWithArgs.Fact(FactRuleWithArgs(fr, Some(value)))] + rest.value)
      case Reactive(rr) =>
        if rest.Err? then rest else Ok([RuleWithArgs.Reactive(ReactiveRuleWithArgs(rr, value, path))] + rest.value)
  }

  /** The case rules among `rules`, in order. */
  function CaseRules(rules: seq<Rule>): (cases: seq<RuleWithArgs>)
    ensures forall x :: x in cases <==> x.Case? && Rule.Case(x.caseRule) in rules
  {
    if |rules| == 0 then []
    else (if rules[0].Case? then [RuleWithArgs.Case(rules[0].caseRule)] else []) + CaseRules(rules[1..])
  }

  /** The status a fact without a value stores: `True` for a variable, `False` for a compound or sub-compound. */
  function FactDefault(ac: AtomicCondition): ActivationStatus
  {
    if ac.Primitive? then True else False
  }

  /**
   * `store_atomic_condition`: a variable is updated; a compound's rules go
   * into the namespace its path names (when it names one), then its
   * reactive and fact rules are processed in turn; a sub-compound stores
   * its inner condition, with the value `False`, one namespace deeper.
   */
  function StoreSpec(st: NodeState, hooks: Hooks, ac: AtomicCondition, value: ActivationStatus,
                     ns: Option<seq<string>>, overrideEntries: bool, fuel: nat): Outcome
    decreases fuel, 0
  {
    if fuel == 0 then (st, Err(OutOfFuel))
    else
      match ac
      case Primitive(p) => UpdateVarSpec(st, p, value)
      case Compound(cp) =>
        var path := PathOf(ns) + AliasPath(cp.alias);
        var st1 := if path == [] then st else StoreRules(st, path, cp.rules, overrideEntries);
        (match CompoundArgs(cp.rules, value, if path == [] then None else Some(path))
         case Err(e) => (st1, Err(e))
         case Ok(rwas) => RulesLoop(st1, hooks, rwas, 0, true, fuel - 1))
      case SubCompound(namespace, inner) =>
        StoreSpec(st, hooks, inner, False, Some([namespace] + PathOf(ns)), overrideEntries, fuel - 1)
  }

  /** Rules processed in turn from `i`, AND-ing their results into `acc`; the first error stops it. */
  function RulesLoop(st: NodeState, hooks: Hooks, rwas: seq<RuleWithArgs>, i: nat, acc: bool, fuel: nat): Outcome
    requires i <= |rwas|
    decreases fuel, 1, |rwas| - i
  {
    if i == |rwas| then (st, Ok(acc))
    else
      var (st1, r) := RuleSpec(st, hooks, rwas[i], fuel);
      if r.Err? then (st1, r) else RulesLoop(st1, hooks, rwas, i + 1, acc && r.value, fuel)
  }

  /**
   * `process_rule`: a reactive rule is registered with the handler for its
   * identifier, a case rule runs its action, a fact stores its condition
   * (with its value or the default), and a declarative rule gives `false`.
   */
  function RuleSpec(st: NodeState, hooks: Hooks, rwa: RuleWithArgs, fuel: nat): Outcome
    decreases fuel, 0
  {
    if fuel == 0 then (st, Err(OutOfFuel))
    else
      match rwa
      case Reactive(rr) =>
        var id := hooks.identifier(rr.rule);
        var handler := if id in st.handlers then Handler(st.handlers[id].rules + [rr]) else Handler([rr]);
        (st.(handlers := st.handlers[id := handler]), Ok(true))
      case Case(cr) => ActionSpec(st, hooks, cr.action, fuel - 1)
      case Fact(f) =>
        var value := if f.value.Some? then f.value.value else FactDefault(f.rule.condition);
        StoreSpec(st, hooks, f.rule.condition, value, None, true, fuel - 1)
      case Declarative(_) => (st, Ok(false))
  }

  /**
   * `process_action`: a trigger needs a handler and runs its action when
   * the handler is active; production and consumption set a condition;
   * sequences and parallel lists run every action and give the
   * conjunction of the results; an alternative runs one chosen action.
   */
  function ActionSpec(st: NodeState, hooks: Hooks, a: Action, fuel: nat): Outcome
    decreases fuel, 0
  {
    if fuel == 0 then (st, Err(OutOfFuel))
    else
      match a
      case Primitive(Trigger(name)) =>
        if name !in st.handlers then (st, Err(InvalidAction(name)))
        else if hooks.handlerState(name) == True then (st, hooks.fire(name))
        else (st, Ok(true))
      case Primitive(Production(ac)) => ProduceSpec(st, hooks, ac, True, true, fuel - 1)
      case Primitive(Consumption(ac)) => ProduceSpec(st, hooks, ac, False, false, fuel - 1)
      case List(Sequence(acts)) =>
        var (st1, results) := ActionsLoop(st, hooks, acts, 0, [], fuel - 1);
        (st1, ConjunctionOf(results))
      case List(Parallel(acts)) =>
        var (st1, results) := ActionsLoop(st, hooks, acts, 0, [], fuel - 1);
        (st1, ConjunctionOf(results))
      case List(Alternative(acts)) =>
        if |acts| == 0 then (st, Err(EmptyAlternative))
        else ActionSpec(st, hooks, acts[hooks.pick(|acts|) % |acts|], fuel - 1)
  }

  /**
   * Production (`value` True, overriding) and consumption (`value` False,
   * uniting): a condition that names no alias is stored with the value;
   * otherwise the rules of the alias are stored as a compound under the
   * alias path, and then its case rules are run.
   */
  function ProduceSpec(st: NodeState, hooks: Hooks, ac: AtomicCondition, value: ActivationStatus,
                       overrideEntries: bool, fuel: nat): Outcome
    decreases fuel, 2
  {
    match AliasRules(st, ac, None)
    case Err(_) => StoreSpec(st, hooks, ac, value, None, true, fuel)
    case Ok((rules, path)) =>
      var compound := AtomicCondition.Compound(Compound.Compound(rules, None));
      var (st1, r1) := StoreSpec(st, hooks, compound, value, Some(path), overrideEntries, fuel);
      if r1.Err? then (st1, r1) else RulesLoop(st1, hooks, CaseRules(rules), 0, r1.value, fuel)
  }

  /** Every action from `i` on is run, in order, and its result recorded. */
  function ActionsLoop(st: NodeState, hooks: Hooks, acts: seq<Action>, i: nat, results: seq<TaskResult>, fuel: nat): (NodeState, seq<TaskResult>)
    requires i <= |acts|
    decreases fuel, 1, |acts| - i
  {
    if i == |acts| then (st, results)
    else
      var (st1, r) := ActionSpec(st, hooks, acts[i], fuel);
      ActionsLoop(st1, hooks, acts, i + 1, results + [Completed(r)], fuel)
  }

  // ================================================ the new_rules route

  /** Rules processed in turn from `i`, recording each result; the first error stops it. */
  function ResultsLoop(st: NodeState, hooks: Hooks, rwas: seq<RuleWithArgs>, i: nat, results: seq<bool>, fuel: nat): (NodeState, Result<seq<bool>, Failure>)
    requires i <= |rwas|
    decreases |rwas| - i
  {
    if i == |rwas| then (st, Ok(results))
    else
      var (st1, r) := RuleSpec(st, hooks, rwas[i], fuel);
      if r.Err? then (st1, Err(r.error)) else ResultsLoop(st1, hooks, rwas, i + 1, results + [r.value], fuel)
  }

  /** The `new_rules` route: each rule's result, in order, or the first error. */
  function NewRules(st: NodeState, hooks: Hooks, rwas: seq<RuleWithArgs>, fuel: nat): (NodeState, Result<seq<bool>, Failure>)
  {
    ResultsLoop(st, hooks, rwas, 0, [], fuel)
  }

  /** The `new_rules` route as written: the same rules run, but the results vector is never filled. */
  function NewRulesAsWritten(st: NodeState, hooks: Hooks, rwas: seq<RuleWithArgs>, fuel: nat): (NodeState, Result<seq<bool>, Failure>)
  {
    var (st1, r) := ResultsLoop(st, hooks, rwas, 0, [], fuel);
    (st1, if r.Err? then r else Ok([]))
  }

  // ==================================================== initialisation

  /** Each atomic condition from `i` on is stored as `False`; the results are ignored. */
  function StoreAllFalse(st: NodeState, hooks: Hooks, acs: seq<AtomicCondition>, i: nat, fuel: nat): NodeState
    requires i <= |acs|
    decreases |acs| - i
  {
    if i == |acs| then st
    else StoreAllFalse(StoreSpec(st, hooks, acs[i], False, None, true, fuel).0, hooks, acs, i + 1, fuel)
  }

  /** The rules other than case rules, each with its default arguments. */
  function OtherRules(rules: seq<Rule>): (others: seq<RuleWithArgs>)
    ensures forall x :: x in others <==> !x.Case? && DefaultArgs(x) && ToRule(x) in rules
  {
    if |rules| == 0 then []
    else (if rules[0].Case? then [] else [WithArgs(rules[0])]) + OtherRules(rules[1..])
  }

  /**
   * `new_with_rules`: every atomic condition of the rules is stored as
   * `False`, then the other rules are added, and only if that succeeds,
   * the case rules.
   */
  function Init(hooks: Hooks, rules: Option<seq<Rule>>, fuel: nat): NodeState
  {
    if rules.None? then EmptyState()
    else
      var rs := rules.value;
      var st1 := StoreAllFalse(EmptyState(), hooks, AtomicsOfProgram(rs), 0, fuel);
      var (st2, r2) := NewRules(st1, hooks, OtherRules(rs), fuel);
      if r2.Err? then st2 else NewRules(st2, hooks, CaseRules(rs), fuel).0
  }
}
