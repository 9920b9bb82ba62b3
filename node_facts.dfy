/**
 * Properties of the node's rule engine (`NodeSpec`): how conditions
 * evaluate, what storing, rules and actions do to the state, what holds
 * after a node is created with rules, and the behaviour the node's tests
 * describe.
 */
module NodeFacts {
  import opened Wrappers
  import opened Ast
  import opened NodeTypes
  import opened NodeUtils
  import opened Visitor
  import opened NodeSpec

  // ======================================================== evaluation

  /** A variable that was never stored reads as Unknown, and evaluating it is an error. */
  lemma UnsetVariableFails(st: NodeState, hooks: Hooks, p: PrimitiveCondition)
    requires p !in st.vars
    ensures EvalCondition(st, hooks, Atomic(AtomicCondition.Primitive(p)))
         == Err(EvaluationFailed(AtomicCondition.Primitive(p), NotABoolean(Conflict)))
  {
  }

  /**
   * Conjuncts from `i` on are true exactly when each of them is; otherwise
   * the result is that of the first conjunct that is not true, and the
   * conjuncts after it are not looked at.
   */
  lemma {:induction false} ConjunctsFrom(st: NodeState, hooks: Hooks, cs: seq<Condition>, i: nat)
    requires i <= |cs|
    ensures EvalConjuncts(st, hooks, cs, i) == Ok(true)
        <==> forall k :: i <= k < |cs| ==> EvalCondition(st, hooks, cs[k]) == Ok(true)
    ensures EvalConjuncts(st, hooks, cs, i) != Ok(true) ==>
      exists k :: (i <= k < |cs| && EvalConjuncts(st, hooks, cs, i) == EvalCondition(st, hooks, cs[k])
        && forall j :: i <= j < k ==> EvalCondition(st, hooks, cs[j]) == Ok(true))
    decreases |cs| - i
  {
    if i < |cs| && EvalCondition(st, hooks, cs[i]) == Ok(true) {
      ConjunctsFrom(st, hooks, cs, i + 1);
      if EvalConjuncts(st, hooks, cs, i) != Ok(true) {
        var k :| i + 1 <= k < |cs| && EvalConjuncts(st, hooks, cs, i + 1) == EvalCondition(st, hooks, cs[k])
          && forall j :: i + 1 <= j < k ==> EvalCondition(st, hooks, cs[j]) == Ok(true);
        assert forall j :: i <= j < k ==> EvalCondition(st, hooks, cs[j]) == Ok(true);
      }
    }
  }

  /**
   * Disjuncts from `i` on are false exactly when each of them is; otherwise
   * the result is that of the first disjunct that is not false.
   */
  lemma {:induction false} DisjunctsFrom(st: NodeState, hooks: Hooks, cs: seq<Condition>, i: nat)
    requires i <= |cs|
    ensures EvalDisjuncts(st, hooks, cs, i) == Ok(false)
        <==> forall k :: i <= k < |cs| ==> EvalCondition(st, hooks, cs[k]) == Ok(false)
    ensures EvalDisjuncts(st, hooks, cs, i) != Ok(false) ==>
      exists k :: (i <= k < |cs| && EvalDisjuncts(st, hooks, cs, i) == EvalCondition(st, hooks, cs[k])
        && forall j :: i <= j < k ==> EvalCondition(st, hooks, cs[j]) == Ok(false))
    decreases |cs| - i
  {
    if i < |cs| && EvalCondition(st, hooks, cs[i]) == Ok(false) {
      DisjunctsFrom(st, hooks, cs, i + 1);
      if EvalDisjuncts(st, hooks, cs, i) != Ok(false) {
        var k :| i + 1 <= k < |cs| && EvalDisjuncts(st, hooks, cs, i + 1) == EvalCondition(st, hooks, cs[k])
          && forall j :: i + 1 <= j < k ==> EvalCondition(st, hooks, cs[j]) == Ok(false);
        assert forall j :: i <= j < k ==> EvalCondition(st, hooks, cs[j]) == Ok(false);
      }
    }
  }

  /** A conjunction is true when every conjunct is, and otherwise takes the first conjunct that is not. */
  lemma ConjunctionShortCircuits(st: NodeState, hooks: Hooks, cs: seq<Condition>)
    ensures EvalCondition(st, hooks, Conjunction(cs)) == Ok(true)
        <==> forall k :: 0 <= k < |cs| ==> EvalCondition(st, hooks, cs[k]) == Ok(true)
    ensures EvalCondition(st, hooks, Conjunction(cs)) != Ok(true) ==>
      exists k :: (0 <= k < |cs| && EvalCondition(st, hooks, Conjunction(cs)) == EvalCondition(st, hooks, cs[k])
        && forall j :: 0 <= j < k ==> EvalCondition(st, hooks, cs[j]) == Ok(true))
  {
    ConjunctsFrom(st, hooks, cs, 0);
  }

  /** A disjunction is false when every disjunct is, and otherwise takes the first disjunct that is not. */
  lemma DisjunctionShortCircuits(st: NodeState, hooks: Hooks, cs: seq<Condition>)
    ensures EvalCondition(st, hooks, Disjunction(cs)) == Ok(false)
        <==> forall k :: 0 <= k < |cs| ==> EvalCondition(st, hooks, cs[k]) == Ok(false)
    ensures EvalCondition(st, hooks, Disjunction(cs)) != Ok(false) ==>
      exists k :: (0 <= k < |cs| && EvalCondition(st, hooks, Disjunction(cs)) == EvalCondition(st, hooks, cs[k])
        && forall j :: 0 <= j < k ==> EvalCondition(st, hooks, cs[j]) == Ok(false))
  {
    DisjunctsFrom(st, hooks, cs, 0);
  }

  /** Every atomic condition in `c` is a variable that holds True or False. */
  predicate Defined(vars: map<PrimitiveCondition, ActivationStatus>, c: Condition)
    decreases c
  {
    match c
    case Atomic(ac) => ac.Primitive? && Lookup(vars, ac.primitive) != Conflict
    case Not(x) => Defined(vars, x)
    case Parentheses(x) => Defined(vars, x)
    case Conjunction(cs) => forall k :: 0 <= k < |cs| ==> Defined(vars, cs[k])
    case Disjunction(cs) => forall k :: 0 <= k < |cs| ==> Defined(vars, cs[k])
  }

  /** The classical truth value of a condition over two-valued variables. */
  predicate Holds(vars: map<PrimitiveCondition, ActivationStatus>, c: Condition)
    requires Defined(vars, c)
    decreases c
  {
    match c
    case Atomic(ac) => Lookup(vars, ac.primitive) == True
    case Not(x) => !Holds(vars, x)
    case Parentheses(x) => Holds(vars, x)
    case Conjunction(cs) => forall k :: 0 <= k < |cs| ==> Holds(vars, cs[k])
    case Disjunction(cs) => exists k :: 0 <= k < |cs| && Holds(vars, cs[k])
  }

  /** Over variables that are all True or False, evaluation never fails and is classical logic. */
  lemma {:induction false} EvalClassical(st: NodeState, hooks: Hooks, c: Condition)
    requires Defined(st.vars, c)
    ensures EvalCondition(st, hooks, c) == Ok(Holds(st.vars, c))
    decreases c
  {
    match c
    case Atomic(ac) =>
    case Not(x) => EvalClassical(st, hooks, x);
    case Parentheses(x) => EvalClassical(st, hooks, x);
    case Conjunction(cs) =>
      forall k | 0 <= k < |cs| ensures EvalCondition(st, hooks, cs[k]) == Ok(Holds(st.vars, cs[k])) {
        EvalClassical(st, hooks, cs[k]);
      }
      ConjunctsFrom(st, hooks, cs, 0);
    case Disjunction(cs) =>
      forall k | 0 <= k < |cs| ensures EvalCondition(st, hooks, cs[k]) == Ok(Holds(st.vars, cs[k])) {
        EvalClassical(st, hooks, cs[k]);
      }
      DisjunctsFrom(st, hooks, cs, 0);
  }

  // ======================================================== invariants

  /** No variable holds Unknown. */
  predicate NoUnknown(st: NodeState)
  {
    forall p :: p in st.vars ==> st.vars[p] != Conflict
  }

  /** Nothing stored in `st` has been removed in `st'`. */
  predicate Extends(st: NodeState, st': NodeState)
  {
    st.vars.Keys <= st'.vars.Keys && st.aliases.Keys <= st'.aliases.Keys && st.handlers.Keys <= st'.handlers.Keys
  }

  /** Storing a condition never writes Unknown into a variable and never removes anything. */
  lemma {:induction false} StoreKeeps(st: NodeState, hooks: Hooks, ac: AtomicCondition, value: ActivationStatus,
                                      ns: Option<seq<string>>, overrideEntries: bool, fuel: nat)
    requires NoUnknown(st)
    ensures NoUnknown(StoreSpec(st, hooks, ac, value, ns, overrideEntries, fuel).0)
    ensures Extends(st, StoreSpec(st, hooks, ac, value, ns, overrideEntries, fuel).0)
    decreases fuel, 0
  {
    if fuel > 0 {
      match ac
      case Primitive(p) =>
      case SubCompound(namespace, inner) =>
        StoreKeeps(st, hooks, inner, False, Some([namespace] + PathOf(ns)), overrideEntries, fuel - 1);
      case Compound(cp) =>
        var path := PathOf(ns) + AliasPath(cp.alias);
        var st1 := if path == [] then st else StoreRules(st, path, cp.rules, overrideEntries);
        var args := CompoundArgs(cp.rules, value, if path == [] then None else Some(path));
        if args.Ok? {
          RulesLoopKeeps(st1, hooks, args.value, 0, true, fuel - 1);
        }
    }
  }

  lemma {:induction false} RulesLoopKeeps(st: NodeState, hooks: Hooks, rwas: seq<RuleWithArgs>, i: nat, acc: bool, fuel: nat)
    requires i <= |rwas| && NoUnknown(st)
    ensures NoUnknown(RulesLoop(st, hooks, rwas, i, acc, fuel).0)
    ensures Extends(st, RulesLoop(st, hooks, rwas, i, acc, fuel).0)
    decreases fuel, 1, |rwas| - i
  {
    if i < |rwas| {
      RuleKeeps(st, hooks, rwas[i], fuel);
      var (st1, r) := RuleSpec(st, hooks, rwas[i], fuel);
      if r.Ok? {
        RulesLoopKeeps(st1, hooks, rwas, i + 1, acc && r.value, fuel);
      }
    }
  }

  /** Processing a rule never writes Unknown into a variable and never removes anything. */
  lemma {:induction false} RuleKeeps(st: NodeState, hooks: Hooks, rwa: RuleWithArgs, fuel: nat)
    requires NoUnknown(st)
    ensures NoUnknown(RuleSpec(st, hooks, rwa, fuel).0)
    ensures Extends(st, RuleSpec(st, hooks, rwa, fuel).0)
    decreases fuel, 0
  {
    if fuel > 0 {
      match rwa
      case Reactive(_) =>
      case Declarative(_) =>
      case Case(cr) => ActionKeeps(st, hooks, cr.action, fuel - 1);
      case Fact(f) =>
        var value := if f.value.Some? then f.value.value else FactDefault(f.rule.condition);
        StoreKeeps(st, hooks, f.rule.condition, value, None, true, fuel - 1);
    }
  }

  /** Processing an action never writes Unknown into a variable and never removes anything. */
  lemma {:induction false} ActionKeeps(st: NodeState, hooks: Hooks, a: Action, fuel: nat)
    requires NoUnknown(st)
    ensures NoUnknown(ActionSpec(st, hooks, a, fuel).0)
    ensures Extends(st, ActionSpec(st, hooks, a, fuel).0)
    decreases fuel, 0
  {
    if fuel > 0 {
      match a
      case Primitive(Trigger(_)) =>
      case Primitive(Production(ac)) => ProduceKeeps(st, hooks, ac, True, true, fuel - 1);
      case Primitive(Consumption(ac)) => ProduceKeeps(st, hooks, ac, False, false, fuel - 1);
      case List(Sequence(acts)) => ActionsLoopKeeps(st, hooks, acts, 0, [], fuel - 1);
      case List(Parallel(acts)) => ActionsLoopKeeps(st, hooks, acts, 0, [], fuel - 1);
      case List(Alternative(acts)) =>
        if |acts| > 0 {
          ActionKeeps(st, hooks, acts[hooks.pick(|acts|) % |acts|], fuel - 1);
        }
    }
  }

  lemma {:induction false} ProduceKeeps(st: NodeState, hooks: Hooks, ac: AtomicCondition, value: ActivationStatus,
                                        overrideEntries: bool, fuel: nat)
    requires NoUnknown(st)
    ensures NoUnknown(ProduceSpec(st, hooks, ac, value, overrideEntries, fuel).0)
    ensures Extends(st, ProduceSpec(st, hooks, ac, value, overrideEntries, fuel).0)
    decreases fuel, 2
  {
    match AliasRules(st, ac, None)
    case Err(_) => StoreKeeps(st, hooks, ac, value, None, true, fuel);
    case Ok((rules, path)) =>
      var compound := AtomicCondition.Compound(Compound.Compound(rules, None));
      StoreKeeps(st, hooks, compound, value, Some(path), overrideEntries, fuel);
      var (st1, r1) := StoreSpec(st, hooks, compound, value, Some(path), overrideEntries, fuel);
      if r1.Ok? {
        RulesLoopKeeps(st1, hooks, CaseRules(rules), 0, r1.value, fuel);
      }
  }

  lemma {:induction false} ActionsLoopKeeps(st: NodeState, hooks: Hooks, acts: seq<Action>, i: nat, results: seq<TaskResult>, fuel: nat)
    requires i <= |acts| && NoUnknown(st)
    ensures NoUnknown(ActionsLoop(st, hooks, acts, i, results, fuel).0)
    ensures Extends(st, ActionsLoop(st, hooks, acts, i, results, fuel).0)
    decreases fuel, 1, |acts| - i
  {
    if i < |acts| {
      ActionKeeps(st, hooks, acts[i], fuel);
      var (st1, r) := ActionSpec(st, hooks, acts[i], fuel);
      ActionsLoopKeeps(st1, hooks, acts, i + 1, results + [Completed(r)], fuel);
    }
  }

  lemma {:induction false} ResultsLoopKeeps(st: NodeState, hooks: Hooks, rwas: seq<RuleWithArgs>, i: nat, results: seq<bool>, fuel: nat)
    requires i <= |rwas| && NoUnknown(st)
    ensures NoUnknown(ResultsLoop(st, hooks, rwas, i, results, fuel).0)
    ensures Extends(st, ResultsLoop(st, hooks, rwas, i, results, fuel).0)
    decreases |rwas| - i
  {
    if i < |rwas| {
      RuleKeeps(st, hooks, rwas[i], fuel);
      var (st1, r) := RuleSpec(st, hooks, rwas[i], fuel);
      if r.Ok? {
        ResultsLoopKeeps(st1, hooks, rwas, i + 1, results + [r.value], fuel);
      }
    }
  }

  /** Storing every atomic condition as False sets each variable among them, to False or to what a later store wrote. */
  lemma {:induction false} StoreAllFalseSets(st: NodeState, hooks: Hooks, acs: seq<AtomicCondition>, i: nat, fuel: nat)
    requires i <= |acs| && NoUnknown(st) && fuel > 0
    ensures NoUnknown(StoreAllFalse(st, hooks, acs, i, fuel))
    ensures Extends(st, StoreAllFalse(st, hooks, acs, i, fuel))
    ensures forall p :: AtomicCondition.Primitive(p) in acs[i..] ==> p in StoreAllFalse(st, hooks, acs, i, fuel).vars
    decreases |acs| - i
  {
    if i < |acs| {
      StoreKeeps(st, hooks, acs[i], False, None, true, fuel);
      var st1 := StoreSpec(st, hooks, acs[i], False, None, true, fuel).0;
      StoreAllFalseSets(st1, hooks, acs, i + 1, fuel);
      assert acs[i..] == [acs[i]] + acs[i + 1..];
    }
  }

  /**
   * After a node is created with rules, every variable the rules mention
   * is set, and no variable holds Unknown.
   */
  lemma InitSetsVariables(hooks: Hooks, rs: seq<Rule>, fuel: nat)
    requires fuel > 0
    ensures NoUnknown(Init(hooks, Some(rs), fuel))
    ensures forall p :: AtomicCondition.Primitive(p) in AtomicsOfRules(rs) ==> p in Init(hooks, Some(rs), fuel).vars
  {
    var acs := AtomicsOfProgram(rs);
    StoreAllFalseSets(EmptyState(), hooks, acs, 0, fuel);
    assert acs[0..] == acs;
    var st1 := StoreAllFalse(EmptyState(), hooks, acs, 0, fuel);
    ResultsLoopKeeps(st1, hooks, OtherRules(rs), 0, [], fuel);
    var (st2, r2) := NewRules(st1, hooks, OtherRules(rs), fuel);
    if r2.Ok? {
      ResultsLoopKeeps(st2, hooks, CaseRules(rs), 0, [], fuel);
    }
  }

  /**
   * So, after creation, any condition built only from the rules'
   * variables evaluates without error, classically.
   */
  lemma InitEvaluatesClassically(hooks: Hooks, rs: seq<Rule>, fuel: nat, c: Condition)
    requires fuel > 0
    requires forall ac :: ac in AtomicsOfCondition(c) ==> ac.Primitive? && ac in AtomicsOfRules(rs)
    ensures Defined(Init(hooks, Some(rs), fuel).vars, c)
    ensures EvalCondition(Init(hooks, Some(rs), fuel), hooks, c) == Ok(Holds(Init(hooks, Some(rs), fuel).vars, c))
  {
    InitSetsVariables(hooks, rs, fuel);
    var st := Init(hooks, Some(rs), fuel);
    DefinedFromAtomics(st, c);
    EvalClassical(st, hooks, c);
  }

  /** A condition whose atomic conditions are all set variables, in a state without Unknown, is defined. */
  lemma {:induction false} DefinedFromAtomics(st: NodeState, c: Condition)
    requires NoUnknown(st)
    requires forall ac :: ac in AtomicsOfCondition(c) ==> ac.Primitive? && ac.primitive in st.vars
    ensures Defined(st.vars, c)
    decreases c
  {
    match c
    case Atomic(ac) => assert ac in AtomicsOfCondition(c);
    case Not(x) => DefinedFromAtomics(st, x);
    case Parentheses(x) => DefinedFromAtomics(st, x);
    case Conjunction(cs) =>
      forall k | 0 <= k < |cs| ensures Defined(st.vars, cs[k]) {
        MemberAtomics(cs, k);
        DefinedFromAtomics(st, cs[k]);
      }
    case Disjunction(cs) =>
      forall k | 0 <= k < |cs| ensures Defined(st.vars, cs[k]) {
        MemberAtomics(cs, k);
        DefinedFromAtomics(st, cs[k]);
      }
  }

  lemma {:induction false} MemberAtomics(cs: seq<Condition>, k: nat)
    requires k < |cs|
    ensures AtomicsOfCondition(cs[k]) <= AtomicsOfConditions(cs)
    decreases k
  {
    if k > 0 {
      MemberAtomics(cs[1..], k - 1);
    }
  }

  // =========================================================== updates

  /** Storing a variable refuses Unknown and changes nothing then; otherwise it sets that variable alone. */
  lemma StoreVariable(st: NodeState, hooks: Hooks, p: PrimitiveCondition, value: ActivationStatus,
                      ns: Option<seq<string>>, overrideEntries: bool, fuel: nat)
    requires fuel > 0
    ensures value == Conflict ==> StoreSpec(st, hooks, AtomicCondition.Primitive(p), value, ns, overrideEntries, fuel) == (st, Err(UnknownUpdate))
    ensures value != Conflict ==> StoreSpec(st, hooks, AtomicCondition.Primitive(p), value, ns, overrideEntries, fuel)
                                  == (st.(vars := st.vars[p := value]), Ok(true))
    ensures value != Conflict ==>
      GetAtomic(StoreSpec(st, hooks, AtomicCondition.Primitive(p), value, ns, overrideEntries, fuel).0, hooks, AtomicCondition.Primitive(p), ns) == Ok(value)
  {
  }

  // =========================================================== actions

  /**
   * A trigger with no handler of that name is an invalid action; one whose
   * handler is not active is skipped as done; an active one gives what the
   * handler's action gives. None of them changes the node's state.
   */
  lemma TriggerOutcome(st: NodeState, hooks: Hooks, name: string, fuel: nat)
    requires fuel > 0
    ensures name !in st.handlers ==> ActionSpec(st, hooks, Action.Primitive(Trigger(name)), fuel) == (st, Err(InvalidAction(name)))
    ensures name in st.handlers && hooks.handlerState(name) != True ==>
      ActionSpec(st, hooks, Action.Primitive(Trigger(name)), fuel) == (st, Ok(true))
    ensures name in st.handlers && hooks.handlerState(name) == True ==>
      ActionSpec(st, hooks, Action.Primitive(Trigger(name)), fuel) == (st, hooks.fire(name))
  {
  }

  /** An empty alternative is an error; otherwise the outcome is that of one of its actions. */
  lemma AlternativeOutcome(st: NodeState, hooks: Hooks, acts: seq<Action>, fuel: nat)
    requires fuel > 0
    ensures |acts| == 0 ==> ActionSpec(st, hooks, List(Alternative(acts)), fuel) == (st, Err(EmptyAlternative))
    ensures |acts| > 0 ==> exists k :: 0 <= k < |acts| && ActionSpec(st, hooks, List(Alternative(acts)), fuel) == ActionSpec(st, hooks, acts[k], fuel - 1)
  {
    if |acts| > 0 {
      var k := hooks.pick(|acts|) % |acts|;
      assert ActionSpec(st, hooks, List(Alternative(acts)), fuel) == ActionSpec(st, hooks, acts[k], fuel - 1);
    }
  }

  /**
   * Producing a variable that names no alias sets it True, and consuming
   * one sets it False; nothing else changes.
   */
  lemma ProduceConsumeVariable(st: NodeState, hooks: Hooks, p: PrimitiveCondition, fuel: nat)
    requires fuel >= 2 && p.name !in st.aliases
    ensures ActionSpec(st, hooks, Action.Primitive(Production(AtomicCondition.Primitive(p))), fuel)
         == (st.(vars := st.vars[p := True]), Ok(true))
    ensures ActionSpec(st, hooks, Action.Primitive(Consumption(AtomicCondition.Primitive(p))), fuel)
         == (st.(vars := st.vars[p := False]), Ok(true))
  {
    var parts := GetParts(PathOf(None) + [p.name]);
    assert parts.0 == p.name;
    assert VarAliasRules(st, p.name, None).Err?;
    assert AliasRules(st, AtomicCondition.Primitive(p), None).Err?;
    assert ProduceSpec(st, hooks, AtomicCondition.Primitive(p), True, true, fuel - 1)
        == StoreSpec(st, hooks, AtomicCondition.Primitive(p), True, None, true, fuel - 1);
    assert StoreSpec(st, hooks, AtomicCondition.Primitive(p), True, None, true, fuel - 1) == (st.(vars := st.vars[p := True]), Ok(true));
    assert ActionSpec(st, hooks, Action.Primitive(Production(AtomicCondition.Primitive(p))), fuel)
        == ProduceSpec(st, hooks, AtomicCondition.Primitive(p), True, true, fuel - 1);
    assert ProduceSpec(st, hooks, AtomicCondition.Primitive(p), False, false, fuel - 1)
        == StoreSpec(st, hooks, AtomicCondition.Primitive(p), False, None, true, fuel - 1);
    assert StoreSpec(st, hooks, AtomicCondition.Primitive(p), False, None, true, fuel - 1) == (st.(vars := st.vars[p := False]), Ok(true));
    assert ActionSpec(st, hooks, Action.Primitive(Consumption(AtomicCondition.Primitive(p))), fuel)
        == ProduceSpec(st, hooks, AtomicCondition.Primitive(p), False, false, fuel - 1);
  }

  /** Running a list of actions records one completed result per action, after those already recorded. */
  lemma {:induction false} ActionsLoopRecords(st: NodeState, hooks: Hooks, acts: seq<Action>, i: nat, results: seq<TaskResult>, fuel: nat)
    requires i <= |acts|
    ensures |ActionsLoop(st, hooks, acts, i, results, fuel).1| == |results| + |acts| - i
    ensures ActionsLoop(st, hooks, acts, i, results, fuel).1[..|results|] == results
    ensures forall k :: |results| <= k < |ActionsLoop(st, hooks, acts, i, results, fuel).1| ==>
      ActionsLoop(st, hooks, acts, i, results, fuel).1[k].Completed?
    decreases |acts| - i
  {
    if i < |acts| {
      var (st1, r) := ActionSpec(st, hooks, acts[i], fuel);
      ActionsLoopRecords(st1, hooks, acts, i + 1, results + [Completed(r)], fuel);
      var out := ActionsLoop(st1, hooks, acts, i + 1, results + [Completed(r)], fuel).1;
      assert out[..|results|] == (out[..|results| + 1])[..|results|];
    }
  }

  /**
   * A sequence and a parallel list run every action and give the same
   * outcome: no error exactly when no action failed, and true exactly
   * when every action gave true.
   */
  lemma ListOutcome(st: NodeState, hooks: Hooks, acts: seq<Action>, fuel: nat)
    requires fuel > 0
    ensures ActionSpec(st, hooks, List(Sequence(acts)), fuel) == ActionSpec(st, hooks, List(Parallel(acts)), fuel)
    ensures var ts := ActionsLoop(st, hooks, acts, 0, [], fuel - 1).1;
      |ts| == |acts|
      && (ActionSpec(st, hooks, List(Sequence(acts)), fuel).1.Ok? <==> forall k :: 0 <= k < |ts| ==> Succeeded(ts[k]))
      && (ActionSpec(st, hooks, List(Sequence(acts)), fuel).1 == Ok(true) <==> forall k :: 0 <= k < |ts| ==> ts[k] == Completed(Ok(true)))
  {
    ActionsLoopRecords(st, hooks, acts, 0, [], fuel - 1);
  }

  // ============================================================= rules

  /** A declarative rule gives false and changes nothing. */
  lemma DeclarativeIgnored(st: NodeState, hooks: Hooks, d: DeclarativeRule, fuel: nat)
    requires fuel > 0
    ensures RuleSpec(st, hooks, RuleWithArgs.Declarative(d), fuel) == (st, Ok(false))
  {
  }

  /**
   * A fact with no value sets a variable True; a fact about a compound
   * with no value stores it as False.
   */
  lemma FactDefaults(st: NodeState, hooks: Hooks, p: PrimitiveCondition, cp: Compound, fuel: nat)
    requires fuel >= 2
    ensures RuleSpec(st, hooks, RuleWithArgs.Fact(FactRuleWithArgs(FactRule(AtomicCondition.Primitive(p)), None)), fuel)
         == (st.(vars := st.vars[p := True]), Ok(true))
    ensures RuleSpec(st, hooks, RuleWithArgs.Fact(FactRuleWithArgs(FactRule(AtomicCondition.Compound(cp)), None)), fuel)
         == StoreSpec(st, hooks, AtomicCondition.Compound(cp), False, None, true, fuel - 1)
  {
  }

  /** The handler for `w`'s identifier holds a rule with `w`'s rule and alias. */
  ghost predicate Registered(st: NodeState, hooks: Hooks, w: ReactiveRuleWithArgs)
  {
    var id := hooks.identifier(w.rule);
    id in st.handlers && exists k :: 0 <= k < |st.handlers[id].rules| && SameRule(st.handlers[id].rules[k], w)
  }

  /** Every rule every handler holds has activation value `v`. */
  predicate HandlersHold(st: NodeState, v: ActivationStatus)
  {
    forall id, k :: id in st.handlers && 0 <= k < |st.handlers[id].rules| ==> st.handlers[id].rules[k].value == v
  }

  /**
   * Processing a reactive rule registers it with the handler for its
   * identifier, a new handler when there is none; the rule's status can
   * then be read, and is its own value when the handler is new. Variables,
   * aliases and the other handlers are unchanged.
   */
  lemma ReactiveRegistered(st: NodeState, hooks: Hooks, rr: ReactiveRuleWithArgs, fuel: nat)
    requires fuel > 0
    ensures RuleSpec(st, hooks, RuleWithArgs.Reactive(rr), fuel).1 == Ok(true)
    ensures Registered(RuleSpec(st, hooks, RuleWithArgs.Reactive(rr), fuel).0, hooks, rr)
    ensures RuleStatus(RuleSpec(st, hooks, RuleWithArgs.Reactive(rr), fuel).0, hooks, rr).Ok?
    ensures hooks.identifier(rr.rule) !in st.handlers ==>
      RuleStatus(RuleSpec(st, hooks, RuleWithArgs.Reactive(rr), fuel).0, hooks, rr) == Ok(rr.value)
    ensures var st' := RuleSpec(st, hooks, RuleWithArgs.Reactive(rr), fuel).0;
      st'.vars == st.vars && st'.aliases == st.aliases
      && forall id :: id in st.handlers && id != hooks.identifier(rr.rule) ==> id in st'.handlers && st'.handlers[id] == st.handlers[id]
  {
    var st' := RuleSpec(st, hooks, RuleWithArgs.Reactive(rr), fuel).0;
    var rules := st'.handlers[hooks.identifier(rr.rule)].rules;
    assert SameRule(rules[|rules| - 1], rr);
  }

  /** A registered rule's status, when every handler holds `v`, is `v`. */
  lemma RegisteredStatus(st: NodeState, hooks: Hooks, w: ReactiveRuleWithArgs, v: ActivationStatus)
    requires Registered(st, hooks, w) && HandlersHold(st, v)
    ensures RuleStatus(st, hooks, w) == Ok(v)
  {
    var id := hooks.identifier(w.rule);
    var k :| 0 <= k < |st.handlers[id].rules| && SameRule(st.handlers[id].rules[k], w);
    assert FindStatus(st.handlers[id].rules, w, id).Ok?;
  }

  /** Registering one reactive rule carrying `v`, into handlers that all hold `v`, keeps every registration. */
  lemma RegisterStep(st: NodeState, hooks: Hooks, rr: ReactiveRuleWithArgs, fuel: nat, v: ActivationStatus)
    requires fuel > 0 && rr.value == v && HandlersHold(st, v)
    ensures HandlersHold(RuleSpec(st, hooks, RuleWithArgs.Reactive(rr), fuel).0, v)
    ensures forall w :: Registered(st, hooks, w) ==> Registered(RuleSpec(st, hooks, RuleWithArgs.Reactive(rr), fuel).0, hooks, w)
  {
    var id := hooks.identifier(rr.rule);
    var st1 := RuleSpec(st, hooks, RuleWithArgs.Reactive(rr), fuel).0;
    assert st1.handlers[id].rules == (if id in st.handlers then st.handlers[id].rules else []) + [rr];
    forall w | Registered(st, hooks, w) ensures Registered(st1, hooks, w) {
      var wid := hooks.identifier(w.rule);
      var k :| 0 <= k < |st.handlers[wid].rules| && SameRule(st.handlers[wid].rules[k], w);
      assert SameRule(st1.handlers[wid].rules[k], w);
    }
  }

  /**
   * Registering reactive rules that all carry `v`, into handlers that all
   * hold `v`: each rule gets registered, nothing registered is lost, and
   * the loop gives its starting value.
   */
  lemma {:induction false} RegisterAll(st: NodeState, hooks: Hooks, rwas: seq<RuleWithArgs>, i: nat, acc: bool, fuel: nat, v: ActivationStatus)
    requires i <= |rwas| && fuel > 0
    requires forall k :: 0 <= k < |rwas| ==> rwas[k].Reactive? && rwas[k].reactive.value == v
    requires HandlersHold(st, v)
    ensures RulesLoop(st, hooks, rwas, i, acc, fuel).1 == Ok(acc)
    ensures HandlersHold(RulesLoop(st, hooks, rwas, i, acc, fuel).0, v)
    ensures RulesLoop(st, hooks, rwas, i, acc, fuel).0.aliases == st.aliases
    ensures forall w :: Registered(st, hooks, w) ==> Registered(RulesLoop(st, hooks, rwas, i, acc, fuel).0, hooks, w)
    ensures forall k :: i <= k < |rwas| ==> Registered(RulesLoop(st, hooks, rwas, i, acc, fuel).0, hooks, rwas[k].reactive)
    decreases |rwas| - i
  {
    if i < |rwas| {
      var rr := rwas[i].reactive;
      ReactiveRegistered(st, hooks, rr, fuel);
      RegisterStep(st, hooks, rr, fuel, v);
      var st1 := RuleSpec(st, hooks, rwas[i], fuel).0;
      RegisterAll(st1, hooks, rwas, i + 1, acc && true, fuel, v);
    }
  }

  /** The statuses of reactive rules that all read `v`. */
  lemma {:induction false} StatusesOf(st: NodeState, hooks: Hooks, m: seq<Rule>, path: seq<string>, v: ActivationStatus)
    requires forall x :: x in m ==> x.Reactive? && RuleStatus(st, hooks, ReactiveRuleWithArgs(x.reactive, True, Some(path))) == Ok(v)
    ensures Statuses(st, hooks, m, path) == Ok(if |m| == 0 then {} else {v})
    decreases |m|
  {
    if |m| > 0 {
      assert m[0] in m;
      assert forall x :: x in m[1..] ==> x in m;
      StatusesOf(st, hooks, m[1..], path, v);
      assert RuleStatus(st, hooks, ReactiveRuleWithArgs(m[0].reactive, True, Some(path))) == Ok(v);
      var rest := Statuses(st, hooks, m[1..], path).value;
      assert Statuses(st, hooks, m, path) == Ok({v} + rest);
      assert {v} + rest == {v};
    }
  }

  /** A compound of reactive rules, stored with `v` under `path`, becomes those reactive rules carrying `v` and the path. */
  lemma ReactiveArgs(rules: seq<Rule>, v: ActivationStatus, path: seq<string>)
    requires forall k :: 0 <= k < |rules| ==> rules[k].Reactive?
    ensures CompoundArgs(rules, v, Some(path)).Ok?
    ensures forall k :: 0 <= k < |CompoundArgs(rules, v, Some(path)).value| ==>
      CompoundArgs(rules, v, Some(path)).value[k].Reactive? && CompoundArgs(rules, v, Some(path)).value[k].reactive.value == v
    ensures forall x :: x in rules ==>
      RuleWithArgs.Reactive(ReactiveRuleWithArgs(x.reactive, v, Some(path))) in CompoundArgs(rules, v, Some(path)).value
  {
    var rwas := CompoundArgs(rules, v, Some(path)).value;
    forall k | 0 <= k < |rwas| ensures rwas[k].Reactive? && rwas[k].reactive.value == v {
      assert rwas[k] in rwas;
      var j :| 0 <= j < |rules| && rules[j] == ToRule(rwas[k]);
    }
  }

  /** On a fresh node, the rules stored under a one-step alias path are read back, up to order and repetition. */
  lemma StoredUnderAlias(rules: seq<Rule>, alias: string, overrideEntries: bool)
    ensures var st1 := StoreRules(EmptyState(), [alias], rules, overrideEntries);
      alias in st1.aliases && GetRules(st1.aliases[alias], []).Ok?
      && forall x :: x in GetRules(st1.aliases[alias], []).value <==> x in rules
  {
    var st1 := StoreRules(EmptyState(), [alias], rules, overrideEntries);
    assert st1.aliases[alias] == Created(NewNamespace(), [], rules, overrideEntries);
  }

  /** The state after storing a compound of reactive rules under an alias on a fresh node. */
  function StoredCompound(hooks: Hooks, rules: seq<Rule>, alias: string, v: ActivationStatus, overrideEntries: bool, fuel: nat): Outcome
  {
    StoreSpec(EmptyState(), hooks, AtomicCondition.Compound(Compound.Compound(rules, Some(alias))), v, None, overrideEntries, fuel)
  }

  /**
   * Storing a compound of reactive rules under an alias on a fresh node
   * succeeds, stores the rules under the alias and registers each of them
   * with the value and the path.
   */
  lemma StoreRegisters(hooks: Hooks, rules: seq<Rule>, alias: string, v: ActivationStatus, overrideEntries: bool, fuel: nat)
    requires fuel >= 2
    requires forall k :: 0 <= k < |rules| ==> rules[k].Reactive?
    ensures var (st', r) := StoredCompound(hooks, rules, alias, v, overrideEntries, fuel);
      r == Ok(true) && HandlersHold(st', v)
      && alias in st'.aliases && GetRules(st'.aliases[alias], []).Ok?
      && (forall x :: x in GetRules(st'.aliases[alias], []).value <==> x in rules)
      && forall x :: x in rules ==> Registered(st', hooks, ReactiveRuleWithArgs(x.reactive, v, Some([alias])))
  {
    var ac := AtomicCondition.Compound(Compound.Compound(rules, Some(alias)));
    var path := [alias];
    assert PathOf(None) + AliasPath(Some(alias)) == path;
    var st1 := StoreRules(EmptyState(), path, rules, overrideEntries);
    StoredUnderAlias(rules, alias, overrideEntries);
    ReactiveArgs(rules, v, path);
    var rwas := CompoundArgs(rules, v, Some(path)).value;
    RegisterAll(st1, hooks, rwas, 0, true, fuel - 1, v);
    var st' := RulesLoop(st1, hooks, rwas, 0, true, fuel - 1).0;
    assert StoreSpec(EmptyState(), hooks, ac, v, None, overrideEntries, fuel) == RulesLoop(st1, hooks, rwas, 0, true, fuel - 1);
    forall x | x in rules ensures Registered(st', hooks, ReactiveRuleWithArgs(x.reactive, v, Some(path))) {
      var k :| 0 <= k < |rwas| && rwas[k] == RuleWithArgs.Reactive(ReactiveRuleWithArgs(x.reactive, v, Some(path)));
    }
  }

  /**
   * Reading a compound of reactive rules back: when its alias holds its
   * rules and each is registered under the alias, in handlers that all
   * hold `v`, the compound's status is `v`.
   */
  lemma ReadBack(st: NodeState, hooks: Hooks, rules: seq<Rule>, alias: string, v: ActivationStatus)
    requires v != Conflict
    requires |rules| > 0 && forall k :: 0 <= k < |rules| ==> rules[k].Reactive?
    requires HandlersHold(st, v) && alias in st.aliases && GetRules(st.aliases[alias], []).Ok?
    requires forall x :: x in GetRules(st.aliases[alias], []).value <==> x in rules
    requires forall x :: x in rules ==> Registered(st, hooks, ReactiveRuleWithArgs(x.reactive, v, Some([alias])))
    ensures GetAtomic(st, hooks, AtomicCondition.Compound(Compound.Compound(rules, Some(alias))), None) == Ok(v)
  {
    var path := [alias];
    assert PathOf(None) + AliasPath(Some(alias)) == path;
    var m := Matching(rules, GetRules(st.aliases[alias], []).value);
    forall x | x in m ensures x.Reactive? && RuleStatus(st, hooks, ReactiveRuleWithArgs(x.reactive, True, Some(path))) == Ok(v) {
      var j :| 0 <= j < |rules| && rules[j] == x;
      assert Registered(st, hooks, ReactiveRuleWithArgs(x.reactive, v, Some(path)));
      assert Registered(st, hooks, ReactiveRuleWithArgs(x.reactive, True, Some(path)));
      RegisteredStatus(st, hooks, ReactiveRuleWithArgs(x.reactive, True, Some(path)), v);
    }
    StatusesOf(st, hooks, m, path, v);
    assert rules[0] in m;
  }

  /**
   * Storing a compound of reactive rules under an alias on a fresh node,
   * with the status `v`, succeeds, and reading the compound back gives `v`.
   */
  lemma CompoundRoundTrip(hooks: Hooks, rules: seq<Rule>, alias: string, v: ActivationStatus, overrideEntries: bool, fuel: nat)
    requires fuel >= 2 && v != Conflict
    requires |rules| > 0 && forall k :: 0 <= k < |rules| ==> rules[k].Reactive?
    ensures StoredCompound(hooks, rules, alias, v, overrideEntries, fuel).1 == Ok(true)
    ensures GetAtomic(StoredCompound(hooks, rules, alias, v, overrideEntries, fuel).0,
                      hooks, AtomicCondition.Compound(Compound.Compound(rules, Some(alias))), None) == Ok(v)
  {
    StoreRegisters(hooks, rules, alias, v, overrideEntries, fuel);
    ReadBack(StoredCompound(hooks, rules, alias, v, overrideEntries, fuel).0, hooks, rules, alias, v);
  }

  // ================================================ the new_rules route

  /** The loop of the route records one result per rule it processes, after those already recorded. */
  lemma {:induction false} ResultsLoopCollects(st: NodeState, hooks: Hooks, rwas: seq<RuleWithArgs>, i: nat, results: seq<bool>, fuel: nat)
    requires i <= |rwas|
    ensures var r := ResultsLoop(st, hooks, rwas, i, results, fuel).1;
      r.Ok? ==> |r.value| == |results| + |rwas| - i && r.value[..|results|] == results
    decreases |rwas| - i
  {
    if i < |rwas| {
      var (st1, r) := RuleSpec(st, hooks, rwas[i], fuel);
      if r.Ok? {
        ResultsLoopCollects(st1, hooks, rwas, i + 1, results + [r.value], fuel);
        var out := ResultsLoop(st1, hooks, rwas, i + 1, results + [r.value], fuel).1;
        if out.Ok? {
          assert out.value[..|results|] == out.value[..|results| + 1][..|results|];
        }
      }
    }
  }

  /** The route reports one result per rule, the first being the first rule's own result. */
  lemma NewRulesReportsEach(st: NodeState, hooks: Hooks, rwas: seq<RuleWithArgs>, fuel: nat)
    ensures NewRules(st, hooks, rwas, fuel).1.Ok? ==> |NewRules(st, hooks, rwas, fuel).1.value| == |rwas|
    ensures NewRules(st, hooks, rwas, fuel).1.Ok? && |rwas| > 0 ==>
      RuleSpec(st, hooks, rwas[0], fuel).1.Ok? && NewRules(st, hooks, rwas, fuel).1.value[0] == RuleSpec(st, hooks, rwas[0], fuel).1.value
  {
    ResultsLoopCollects(st, hooks, rwas, 0, [], fuel);
    if |rwas| > 0 {
      var (st1, r) := RuleSpec(st, hooks, rwas[0], fuel);
      if r.Ok? {
        assert [] + [r.value] == [r.value];
        ResultsLoopCollects(st1, hooks, rwas, 1, [r.value], fuel);
      }
    }
  }

  /** As written, the route processes the same rules and fails alike, but reports no result. */
  lemma NewRulesAsWrittenReportsNothing(st: NodeState, hooks: Hooks, rwas: seq<RuleWithArgs>, fuel: nat)
    ensures NewRulesAsWritten(st, hooks, rwas, fuel).0 == NewRules(st, hooks, rwas, fuel).0
    ensures NewRulesAsWritten(st, hooks, rwas, fuel).1.Err? <==> NewRules(st, hooks, rwas, fuel).1.Err?
    ensures NewRulesAsWritten(st, hooks, rwas, fuel).1.Ok? ==> NewRulesAsWritten(st, hooks, rwas, fuel).1.value == []
  {
  }

  /**
   * One case rule producing `a`, as an event handler submits it: as
   * written the route succeeds with no result for the handler's first
   * index to read; corrected, that result is `true`.
   */
  lemma CaseResultMissing(hooks: Hooks)
    ensures NewRulesAsWritten(EmptyState(), hooks, [RuleWithArgs.Case(CaseRule(Action.Primitive(Production(PrimVar("a")))))], 3).1 == Ok([])
    ensures NewRules(EmptyState(), hooks, [RuleWithArgs.Case(CaseRule(Action.Primitive(Production(PrimVar("a")))))], 3).1 == Ok([true])
  {
    ProduceConsumeVariable(EmptyState(), hooks, Var("a"), 2);
    var rwa := RuleWithArgs.Case(CaseRule(Action.Primitive(Production(PrimVar("a")))));
    assert RuleSpec(EmptyState(), hooks, rwa, 3).1 == Ok(true);
    NewRulesOne(EmptyState(), hooks, rwa, 3);
  }

  // ===================================================== node behaviour

  /** Storing only variables as False: those variables are set to False, the rest of the state is kept. */
  lemma {:induction false} StoreAllVariables(st: NodeState, hooks: Hooks, acs: seq<AtomicCondition>, i: nat, fuel: nat)
    requires i <= |acs| && fuel > 0
    requires forall k :: i <= k < |acs| ==> acs[k].Primitive?
    ensures StoreAllFalse(st, hooks, acs, i, fuel).aliases == st.aliases
    ensures StoreAllFalse(st, hooks, acs, i, fuel).handlers == st.handlers
    ensures forall p :: p in StoreAllFalse(st, hooks, acs, i, fuel).vars <==> p in st.vars || AtomicCondition.Primitive(p) in acs[i..]
    ensures forall p :: AtomicCondition.Primitive(p) in acs[i..] ==> StoreAllFalse(st, hooks, acs, i, fuel).vars[p] == False
    ensures forall p :: p in st.vars && AtomicCondition.Primitive(p) !in acs[i..] ==> StoreAllFalse(st, hooks, acs, i, fuel).vars[p] == st.vars[p]
    decreases |acs| - i
  {
    if i < |acs| {
      var st1 := StoreSpec(st, hooks, acs[i], False, None, true, fuel).0;
      assert st1 == st.(vars := st.vars[acs[i].primitive := False]);
      StoreAllVariables(st1, hooks, acs, i + 1, fuel);
      assert acs[i..] == [acs[i]] + acs[i + 1..];
    }
  }

  /**
   * Creating a node whose rules mention only variables first sets each of
   * those variables, and nothing else, to False.
   */
  lemma InitVariablesFalse(hooks: Hooks, rs: seq<Rule>, fuel: nat)
    requires fuel > 0 && forall ac :: ac in AtomicsOfRules(rs) ==> ac.Primitive?
    ensures StoreAllFalse(EmptyState(), hooks, AtomicsOfProgram(rs), 0, fuel).aliases == map[]
    ensures StoreAllFalse(EmptyState(), hooks, AtomicsOfProgram(rs), 0, fuel).handlers == map[]
    ensures forall p :: p in StoreAllFalse(EmptyState(), hooks, AtomicsOfProgram(rs), 0, fuel).vars
                    <==> AtomicCondition.Primitive(p) in AtomicsOfRules(rs)
    ensures forall p :: p in StoreAllFalse(EmptyState(), hooks, AtomicsOfProgram(rs), 0, fuel).vars
                    ==> StoreAllFalse(EmptyState(), hooks, AtomicsOfProgram(rs), 0, fuel).vars[p] == False
  {
    var acs := AtomicsOfProgram(rs);
    assert forall k :: 0 <= k < |acs| ==> acs[k] in acs;
    StoreAllVariables(EmptyState(), hooks, acs, 0, fuel);
    assert acs[0..] == acs;
  }

  /** The route on one rule gives that rule's state, and its result as the only one. */
  lemma NewRulesOne(st: NodeState, hooks: Hooks, rwa: RuleWithArgs, fuel: nat)
    ensures NewRules(st, hooks, [rwa], fuel).0 == RuleSpec(st, hooks, rwa, fuel).0
    ensures NewRules(st, hooks, [rwa], fuel).1
         == (if RuleSpec(st, hooks, rwa, fuel).1.Ok? then Ok([RuleSpec(st, hooks, rwa, fuel).1.value])
             else Err(RuleSpec(st, hooks, rwa, fuel).1.error))
  {
    var rwas := [rwa];
    assert rwas[0] == rwa;
    var (st1, r) := RuleSpec(st, hooks, rwa, fuel);
    if r.Ok? {
      assert [] + [r.value] == [r.value];
      assert ResultsLoop(st1, hooks, rwas, 1, [r.value], fuel) == (st1, Ok([r.value]));
    }
  }

  /** The node of `=> +loaded.`: `loaded` evaluates true. */
  lemma ProductionCaseSetsTrue(hooks: Hooks)
    ensures EvalCondition(Init(hooks, Some([Rule.Case(CaseRule(Action.Primitive(Production(PrimVar("loaded")))))]), 3),
                          hooks, Atomic(PrimVar("loaded"))) == Ok(true)
  {
    var cr := CaseRule(Action.Primitive(Production(PrimVar("loaded"))));
    var rs := [Rule.Case(cr)];
    var loaded := Var("loaded");
    assert AtomicsOfRules(rs) == {PrimVar("loaded")};
    InitVariablesFalse(hooks, rs, 3);
    var st1 := StoreAllFalse(EmptyState(), hooks, AtomicsOfProgram(rs), 0, 3);
    assert OtherRules(rs) == [];
    assert NewRules(st1, hooks, OtherRules(rs), 3) == (st1, Ok([]));
    assert CaseRules(rs) == [RuleWithArgs.Case(cr)];
    ProduceConsumeVariable(st1, hooks, loaded, 2);
    var st2 := st1.(vars := st1.vars[loaded := True]);
    assert RuleSpec(st1, hooks, RuleWithArgs.Case(cr), 3) == (st2, Ok(true));
    NewRulesOne(st1, hooks, RuleWithArgs.Case(cr), 3);
    assert Init(hooks, Some(rs), 3) == st2;
  }

  /** The node of `=> -loaded.`: `loaded` evaluates false. */
  lemma ConsumptionCaseSetsFalse(hooks: Hooks)
    ensures EvalCondition(Init(hooks, Some([Rule.Case(CaseRule(Action.Primitive(Consumption(PrimVar("loaded")))))]), 3),
                          hooks, Atomic(PrimVar("loaded"))) == Ok(false)
  {
    var cr := CaseRule(Action.Primitive(Consumption(PrimVar("loaded"))));
    var rs := [Rule.Case(cr)];
    var loaded := Var("loaded");
    assert AtomicsOfRules(rs) == {PrimVar("loaded")};
    InitVariablesFalse(hooks, rs, 3);
    var st1 := StoreAllFalse(EmptyState(), hooks, AtomicsOfProgram(rs), 0, 3);
    assert OtherRules(rs) == [];
    assert NewRules(st1, hooks, OtherRules(rs), 3) == (st1, Ok([]));
    assert CaseRules(rs) == [RuleWithArgs.Case(cr)];
    ProduceConsumeVariable(st1, hooks, loaded, 2);
    var st2 := st1.(vars := st1.vars[loaded := False]);
    assert RuleSpec(st1, hooks, RuleWithArgs.Case(cr), 3) == (st2, Ok(true));
    NewRulesOne(st1, hooks, RuleWithArgs.Case(cr), 3);
    assert Init(hooks, Some(rs), 3) == st2;
  }

  /** The node of the fact `loaded.`: `loaded` evaluates true. */
  lemma FactSetsTrue(hooks: Hooks)
    ensures EvalCondition(Init(hooks, Some([Rule.Fact(FactRule(PrimVar("loaded")))]), 3), hooks, Atomic(PrimVar("loaded"))) == Ok(true)
  {
    var rs := [Rule.Fact(FactRule(PrimVar("loaded")))];
    var loaded := Var("loaded");
    assert AtomicsOfRules(rs) == {PrimVar("loaded")};
    InitVariablesFalse(hooks, rs, 3);
    var st1 := StoreAllFalse(EmptyState(), hooks, AtomicsOfProgram(rs), 0, 3);
    var rwa := WithArgs(rs[0]);
    assert OtherRules(rs) == [rwa];
    FactDefaults(st1, hooks, loaded, Compound.Compound([], None), 3);
    var st2 := st1.(vars := st1.vars[loaded := True]);
    NewRulesOne(st1, hooks, rwa, 3);
    assert CaseRules(rs) == [];
    assert NewRules(st2, hooks, CaseRules(rs), 3) == (st2, Ok([]));
    assert Init(hooks, Some(rs), 3) == st2;
  }

  /** The node of `#e => +a.`: `loaded` was never set, and evaluating it is an error. */
  lemma UnrelatedRuleLeavesUnset(hooks: Hooks)
    ensures EvalCondition(Init(hooks, Some([Rule.Reactive(ECA(Trigger("e"), None, Action.Primitive(Production(PrimVar("a")))))]), 3),
                          hooks, Atomic(PrimVar("loaded"))).Err?
  {
    var rs := [Rule.Reactive(ECA(Trigger("e"), None, Action.Primitive(Production(PrimVar("a")))))];
    assert AtomicsOfRules(rs) == {PrimVar("a")};
    InitVariablesFalse(hooks, rs, 3);
    var st1 := StoreAllFalse(EmptyState(), hooks, AtomicsOfProgram(rs), 0, 3);
    var rwa := WithArgs(rs[0]);
    assert OtherRules(rs) == [rwa];
    ReactiveRegistered(st1, hooks, rwa.reactive, 3);
    NewRulesOne(st1, hooks, rwa, 3);
    var st2 := RuleSpec(st1, hooks, rwa, 3).0;
    assert CaseRules(rs) == [];
    assert NewRules(st2, hooks, CaseRules(rs), 3) == (st2, Ok([]));
    assert Init(hooks, Some(rs), 3) == st2;
    UnsetVariableFails(st2, hooks, Var("loaded"));
  }

  /** The node of `#e => +loaded.`: the rule only reacts to `e`, and `loaded` is false from creation. */
  lemma ReactiveRuleStartsFalse(hooks: Hooks)
    ensures EvalCondition(Init(hooks, Some([Rule.Reactive(ECA(Trigger("e"), None, Action.Primitive(Production(PrimVar("loaded")))))]), 3),
                          hooks, Atomic(PrimVar("loaded"))) == Ok(false)
  {
    var rs := [Rule.Reactive(ECA(Trigger("e"), None, Action.Primitive(Production(PrimVar("loaded")))))];
    assert AtomicsOfRules(rs) == {PrimVar("loaded")};
    InitVariablesFalse(hooks, rs, 3);
    var st1 := StoreAllFalse(EmptyState(), hooks, AtomicsOfProgram(rs), 0, 3);
    var rwa := WithArgs(rs[0]);
    assert OtherRules(rs) == [rwa];
    ReactiveRegistered(st1, hooks, rwa.reactive, 3);
    NewRulesOne(st1, hooks, rwa, 3);
    var st2 := RuleSpec(st1, hooks, rwa, 3).0;
    assert CaseRules(rs) == [];
    assert NewRules(st2, hooks, CaseRules(rs), 3) == (st2, Ok([]));
    assert Init(hooks, Some(rs), 3) == st2;
  }
}
