/**
 * The node's value types (crates/cl0_node/src/types.rs): the three-valued
 * activation status of a condition variable, rules carried with their
 * activation arguments, and the conversions between those and plain rules.
 *
 * Errors are values of `Failure`, one constructor per kind of error the
 * node reports; the wording of the messages is not modelled.
 */
module NodeTypes {
  import opened Wrappers
  import opened Ast

  /** The value of a condition variable; `Conflict` is displayed as "Unknown". */
  datatype ActivationStatus = True | False | Conflict

  /** The kinds of error the node's operations report. */
  datatype Failure =
    | NotABoolean(status: ActivationStatus)                // to_bool on Conflict
    | OverallUnknown                                       // a Conflict among statuses
    | NoValidStatus                                        // no status at all
    | NoMatchingNamespace(alias: string)                   // a path step with no child
    | NoAliasFound                                         // no alias namespace for a condition
    | MainNamespace                                        // a compound outside any namespace
    | NoNamespaceForAlias(alias: string)                   // no top-level namespace of that name
    | HandlerNotFound(id: string)                          // no handler for a rule
    | RuleNotFound(id: string)                             // the handler does not hold the rule
    | InvalidAction(name: string)                          // a trigger with no handler
    | EmptyAlternative                                     // alt with no actions
    | UnknownUpdate                                        // storing Conflict
    | EvaluationFailed(condition: AtomicCondition, cause: Failure)
    | LookupFailed(condition: AtomicCondition, cause: Failure)
    | HandlerFailed(id: string)                            // the handler's own action failed
    | JoinFailed                                           // a spawned task did not complete
    | UnsupportedRule(rule: Rule)                          // the panic on a declarative rule in a compound
    | OutOfFuel                                            // the model's recursion bound

  /** The boolean a status stands for, when it stands for one. */
  function AsOptionBool(s: ActivationStatus): (r: Option<bool>)
    ensures r.None? <==> s == Conflict
    ensures r.Some? ==> FromBool(r.value) == s
  {
    match s
    case True => Some(true)
    case False => Some(false)
    case Conflict => None
  }

  /** The status that stands for a boolean. */
  function FromBool(b: bool): (s: ActivationStatus)
    ensures s != Conflict
  {
    if b then True else False
  }

  /** `AsOptionBool` inverts `FromBool`. */
  lemma AsOptionBoolFromBool(b: bool)
    ensures AsOptionBool(FromBool(b)) == Some(b)
  {
  }

  /** The boolean of a status, or an error for `Conflict`. */
  function ToBool(s: ActivationStatus): (r: Result<bool, Failure>)
    ensures r.Err? <==> s == Conflict
    ensures r.Ok? ==> AsOptionBool(s) == Some(r.value)
    ensures r.Err? ==> r.error == NotABoolean(s)
  {
    match AsOptionBool(s)
    case Some(b) => Ok(b)
    case None => Err(NotABoolean(s))
  }

  /** How a status is displayed. */
  function Display(s: ActivationStatus): (w: string)
    ensures |w| > 0
    ensures s == Conflict <==> w == "Unknown"
  {
    match s
    case True => "True"
    case False => "False"
    case Conflict => "Unknown"
  }

  /** Different statuses display differently. */
  lemma DisplayInjective(s: ActivationStatus, t: ActivationStatus)
    requires Display(s) == Display(t)
    ensures s == t
  {
  }

  /** A reactive rule with its activation value and the alias path it was stored under. */
  datatype ReactiveRuleWithArgs = ReactiveRuleWithArgs(rule: ReactiveRule, value: ActivationStatus, alias: Option<seq<string>>)

  /** A fact with the value to store, when one is given. */
  datatype FactRuleWithArgs = FactRuleWithArgs(rule: FactRule, value: Option<ActivationStatus>)

  datatype RuleWithArgs =
    | Declarative(declarative: DeclarativeRule)
    | Case(caseRule: CaseRule)
    | Fact(fact: FactRuleWithArgs)
    | Reactive(reactive: ReactiveRuleWithArgs)

  /** The plain rule, without its arguments. */
  function ToRule(rwa: RuleWithArgs): (r: Rule)
    ensures r.Declarative? <==> rwa.Declarative?
    ensures r.Case? <==> rwa.Case?
    ensures r.Fact? <==> rwa.Fact?
    ensures r.Reactive? <==> rwa.Reactive?
  {
    match rwa
    case Declarative(d) => Rule.Declarative(d)
    case Case(c) => Rule.Case(c)
    case Fact(f) => Rule.Fact(f.rule)
    case Reactive(rr) => Rule.Reactive(rr.rule)
  }

  /** The arguments a plain rule is given: no value for a fact, `True` and no alias for a reactive rule. */
  predicate DefaultArgs(rwa: RuleWithArgs)
  {
    match rwa
    case Fact(f) => f.value == None
    case Reactive(rr) => rr.value == True && rr.alias == None
    case _ => true
  }

  /** A plain rule with the default arguments; converting back gives the rule. */
  function WithArgs(r: Rule): (rwa: RuleWithArgs)
    ensures DefaultArgs(rwa)
    ensures ToRule(rwa) == r
  {
    match r
    case Declarative(d) => RuleWithArgs.Declarative(d)
    case Case(c) => RuleWithArgs.Case(c)
    case Fact(fr) => RuleWithArgs.Fact(FactRuleWithArgs(fr, None))
    case Reactive(rr) => RuleWithArgs.Reactive(ReactiveRuleWithArgs(rr, True, None))
  }

  /**
   * Converting to a plain rule and back restores a rule with arguments
   * exactly when it had the default arguments: the value and the alias
   * are dropped on the way.
   */
  lemma ArgsRoundTrip(rwa: RuleWithArgs)
    ensures WithArgs(ToRule(rwa)) == rwa <==> DefaultArgs(rwa)
  {
  }

  /** Two rules with arguments that differ only in their arguments give the same plain rule. */
  lemma ToRuleDropsArgs(rr: ReactiveRule, v: ActivationStatus, alias: Option<seq<string>>, fr: FactRule, fv: Option<ActivationStatus>)
    ensures ToRule(RuleWithArgs.Reactive(ReactiveRuleWithArgs(rr, v, alias))) == ToRule(WithArgs(Rule.Reactive(rr)))
    ensures ToRule(RuleWithArgs.Fact(FactRuleWithArgs(fr, fv))) == ToRule(WithArgs(Rule.Fact(fr)))
  {
  }
}
