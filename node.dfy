/**
 * The node (crates/cl0_node/src/node.rs) as an object: the variable
 * store, the alias namespaces and the handler registry are fields that
 * its operations update in place. Each operation is proved to leave the
 * state, and to return the result, that its function in `NodeSpec`
 * gives; the properties of those functions are in `NodeFacts`.
 */
module NodeEngine {
  import opened Wrappers
  import opened Ast
  import opened NodeTypes
  import opened NodeUtils
  import opened Visitor
  import opened NodeSpec

  class Node {
    var vars: map<PrimitiveCondition, ActivationStatus>
    var aliases: map<string, Namespace>
    var handlers: map<string, Handler>
    const hooks: Hooks

    /** The node's maps as one value. */
    function State(): NodeState
      reads this
    {
      NodeState(vars, aliases, handlers)
    }

    /** A node with nothing stored. */
    constructor (hooks: Hooks)
      ensures State() == EmptyState() && this.hooks == hooks
    {
      vars := map[];
      aliases := map[];
      handlers := map[];
      this.hooks := hooks;
    }

    /** `new_with_rules`: the atomic conditions stored as False, then the other rules, then (if those succeed) the case rules. */
    static method NewWithRules(hooks: Hooks, rules: Option<seq<Rule>>, fuel: nat) returns (node: Node)
      ensures fresh(node) && node.hooks == hooks
      ensures node.State() == Init(hooks, rules, fuel)
    {
      node := new Node(hooks);
      if rules.Some? {
        var rs := rules.value;
        var acs := AtomicsOfProgram(rs);
        var i := 0;
        while i < |acs|
          invariant 0 <= i <= |acs| && fresh(node) && node.hooks == hooks
          invariant StoreAllFalse(EmptyState(), hooks, acs, 0, fuel) == StoreAllFalse(node.State(), hooks, acs, i, fuel)
          decreases |acs| - i
        {
          var ignored := node.StoreAtomicCondition(acs[i], False, None, true, fuel);
          i := i + 1;
        }
        var res := node.NewRules(OtherRules(rs), fuel);
        if res.Ok? {
          res := node.NewRules(CaseRules(rs), fuel);
        }
      }
    }

    /** The `new_rules` route: each rule processed in turn, its result recorded; the first error stops it. */
    method NewRules(rwas: seq<RuleWithArgs>, fuel: nat) returns (r: Result<seq<bool>, Failure>)
      modifies this
      ensures (State(), r) == NodeSpec.NewRules(old(State()), hooks, rwas, fuel)
    {
      var results := [];
      var i := 0;
      while i < |rwas|
        invariant 0 <= i <= |rwas|
        invariant NodeSpec.NewRules(old(State()), hooks, rwas, fuel) == ResultsLoop(State(), hooks, rwas, i, results, fuel)
        decreases |rwas| - i
      {
        var res := ProcessRule(rwas[i], fuel);
        if res.Err? {
          return Err(res.error);
        }
        results := results + [res.value];
        i := i + 1;
      }
      r := Ok(results);
    }

    /** `process_condition`: conjunctions and disjunctions stop at the first deciding operand. */
    method ProcessCondition(c: Condition) returns (r: Result<bool, Failure>)
      ensures r == EvalCondition(State(), hooks, c)
      decreases c
    {
      match c {
        case Atomic(ac) =>
          var v := GetAtomicCondition(ac, None);
          if v.Err? {
            return Err(LookupFailed(ac, v.error));
          }
          var b := ToBool(v.value);
          r := if b.Err? then Err(EvaluationFailed(ac, b.error)) else Ok(b.value);
        case Not(x) =>
          var b := ProcessCondition(x);
          r := if b.Err? then b else Ok(!b.value);
        case Parentheses(x) =>
          r := ProcessCondition(x);
        case Conjunction(cs) =>
          var i := 0;
          while i < |cs|
            invariant 0 <= i <= |cs|
            invariant EvalConjuncts(State(), hooks, cs, 0) == EvalConjuncts(State(), hooks, cs, i)
            decreases |cs| - i
          {
            var b := ProcessCondition(cs[i]);
            if b.Err? {
              return b;
            }
            if !b.value {
              return Ok(false);
            }
            i := i + 1;
          }
          r := Ok(true);
        case Disjunction(cs) =>
          var i := 0;
          while i < |cs|
            invariant 0 <= i <= |cs|
            invariant EvalDisjuncts(State(), hooks, cs, 0) == EvalDisjuncts(State(), hooks, cs, i)
            decreases |cs| - i
          {
            var b := ProcessCondition(cs[i]);
            if b.Err? {
              return b;
            }
            if b.value {
              return Ok(true);
            }
            i := i + 1;
          }
          r := Ok(false);
      }
    }

    /** `get_atomic_condition`: a variable's status, or the overall status of a compound's reactive rules. */
    method GetAtomicCondition(ac: AtomicCondition, ns: Option<seq<string>>) returns (r: Result<ActivationStatus, Failure>)
      ensures r == GetAtomic(State(), hooks, ac, ns)
      decreases ac
    {
      match ac {
        case Primitive(p) =>
          r := Ok(if p in vars then vars[p] else Conflict);
        case SubCompound(namespace, inner) =>
          r := GetAtomicCondition(inner, Some([namespace] + PathOf(ns)));
        case Compound(cp) =>
          var path := PathOf(ns) + AliasPath(cp.alias);
          if path == [] {
            return Err(MainNamespace);
          }
          if path[0] !in aliases {
            return Err(NoNamespaceForAlias(path[0]));
          }
          var held := GetRules(aliases[path[0]], path[1..]);
          if held.Err? {
            return Err(held.error);
          }
          var statuses := CollectStatuses(Matching(cp.rules, held.value), path);
          if statuses.Err? {
            return Err(statuses.error);
          }
          r := OverallStatusFromSet(statuses.value);
      }
    }

    /** The statuses of the reactive rules among `rules`, stored under `path`; the first error stops it. */
    method CollectStatuses(rules: seq<Rule>, path: seq<string>) returns (r: Result<set<ActivationStatus>, Failure>)
      ensures r == Statuses(State(), hooks, rules, path)
    {
      var statuses: set<ActivationStatus> := {};
      var i := 0;
      assert rules[0..] == rules;
      assert Statuses(State(), hooks, rules, path).Ok? ==> Statuses(State(), hooks, rules, path).value == {} + Statuses(State(), hooks, rules, path).value;
      while i < |rules|
        invariant 0 <= i <= |rules|
        invariant Statuses(State(), hooks, rules[i..], path).Err? ==> Statuses(State(), hooks, rules, path) == Statuses(State(), hooks, rules[i..], path)
        invariant Statuses(State(), hooks, rules[i..], path).Ok? ==>
                    Statuses(State(), hooks, rules, path) == Ok(statuses + Statuses(State(), hooks, rules[i..], path).value)
        decreases |rules| - i
      {
        assert rules[i..][1..] == rules[i + 1..];
        if rules[i].Reactive? {
          var s := GetRuleStatus(ReactiveRuleWithArgs(rules[i].reactive, True, Some(path)));
          if s.Err? {
            return Err(s.error);
          }
          var tail := Statuses(State(), hooks, rules[i + 1..], path);
          if tail.Ok? {
            assert statuses + ({s.value} + tail.value) == (statuses + {s.value}) + tail.value;
          }
          statuses := statuses + {s.value};
        }
        i := i + 1;
      }
      assert rules[i..] == [];
      assert statuses + {} == statuses;
      r := Ok(statuses);
    }

    /** `get_rule_status`: the value of the first rule the handler holds with the same rule and alias. */
    method GetRuleStatus(wanted: ReactiveRuleWithArgs) returns (r: Result<ActivationStatus, Failure>)
      ensures r == RuleStatus(State(), hooks, wanted)
    {
      var id := hooks.identifier(wanted.rule);
      if id !in handlers {
        return Err(HandlerNotFound(id));
      }
      var rules := handlers[id].rules;
      var i := 0;
      while i < |rules|
        invariant 0 <= i <= |rules|
        invariant FindStatus(rules, wanted, id) == FindStatus(rules[i..], wanted, id)
        decreases |rules| - i
      {
        assert rules[i..][1..] == rules[i + 1..];
        if SameRule(rules[i], wanted) {
          return Ok(rules[i].value);
        }
        i := i + 1;
      }
      r := Err(RuleNotFound(id));
    }

    /** `update_var`: refuses Unknown, otherwise sets the variable. */
    method UpdateVar(p: PrimitiveCondition, value: ActivationStatus) returns (r: Result<bool, Failure>)
      modifies this
      ensures (State(), r) == UpdateVarSpec(old(State()), p, value)
    {
      if value == Conflict {
        return Err(UnknownUpdate);
      }
      vars := vars[p := value];
      r := Ok(true);
    }

    /** `store_atomic_condition`. */
    method StoreAtomicCondition(ac: AtomicCondition, value: ActivationStatus, ns: Option<seq<string>>,
                                overrideEntries: bool, fuel: nat) returns (r: Result<bool, Failure>)
      modifies this
      ensures (State(), r) == StoreSpec(old(State()), hooks, ac, value, ns, overrideEntries, fuel)
      decreases fuel, 0
    {
      if fuel == 0 {
        return Err(OutOfFuel);
      }
      match ac {
        case Primitive(p) =>
          r := UpdateVar(p, value);
        case SubCompound(namespace, inner) =>
          r := StoreAtomicCondition(inner, False, Some([namespace] + PathOf(ns)), overrideEntries, fuel - 1);
        case Compound(cp) =>
          var path := PathOf(ns) + AliasPath(cp.alias);
          if path != [] {
            var child := if path[0] in aliases then aliases[path[0]] else NewNamespace();
            var updated, previous := CreateRules(child, path[1..], cp.rules, overrideEntries);
            aliases := aliases[path[0] := updated];
          }
          var args := CompoundArgs(cp.rules, value, if path == [] then None else Some(path));
          if args.Err? {
            return Err(args.error);
          }
          r := ProcessRules(args.value, true, fuel - 1);
      }
    }

    /** Rules processed in turn, their results AND-ed into `acc`; the first error stops it. */
    method ProcessRules(rwas: seq<RuleWithArgs>, acc: bool, fuel: nat) returns (r: Result<bool, Failure>)
      modifies this
      ensures (State(), r) == RulesLoop(old(State()), hooks, rwas, 0, acc, fuel)
      decreases fuel, 1
    {
      var all := acc;
      var i := 0;
      while i < |rwas|
        invariant 0 <= i <= |rwas|
        invariant RulesLoop(old(State()), hooks, rwas, 0, acc, fuel) == RulesLoop(State(), hooks, rwas, i, all, fuel)
        decreases |rwas| - i
      {
        var res := ProcessRule(rwas[i], fuel);
        if res.Err? {
          return res;
        }
        all := all && res.value;
        i := i + 1;
      }
      r := Ok(all);
    }

    /** `process_rule`. */
    method ProcessRule(rwa: RuleWithArgs, fuel: nat) returns (r: Result<bool, Failure>)
      modifies this
      ensures (State(), r) == RuleSpec(old(State()), hooks, rwa, fuel)
      decreases fuel, 0
    {
      if fuel == 0 {
        return Err(OutOfFuel);
      }
      match rwa {
        case Reactive(rr) =>
          var id := hooks.identifier(rr.rule);
          if id in handlers {
            handlers := handlers[id := Handler(handlers[id].rules + [rr])];
          } else {
            handlers := handlers[id := Handler([rr])];
          }
          r := Ok(true);
        case Case(cr) =>
          r := ProcessAction(cr.action, fuel - 1);
        case Fact(f) =>
          var value := if f.value.Some? then f.value.value else FactDefault(f.rule.condition);
          r := StoreAtomicCondition(f.rule.condition, value, None, true, fuel - 1);
        case Declarative(_) =>
          r := Ok(false);
      }
    }

    /** `process_action`. */
    method ProcessAction(a: Action, fuel: nat) returns (r: Result<bool, Failure>)
      modifies this
      ensures (State(), r) == ActionSpec(old(State()), hooks, a, fuel)
      decreases fuel, 0
    {
      if fuel == 0 {
        return Err(OutOfFuel);
      }
      match a {
        case Primitive(Trigger(name)) =>
          if name !in handlers {
            r := Err(InvalidAction(name));
          } else if hooks.handlerState(name) == True {
            r := hooks.fire(name);
          } else {
            r := Ok(true);
          }
        case Primitive(Production(ac)) =>
          r := Produce(ac, True, true, fuel - 1);
        case Primitive(Consumption(ac)) =>
          r := Produce(ac, False, false, fuel - 1);
        case List(Sequence(acts)) =>
          r := RunAll(acts, fuel - 1);
        case List(Parallel(acts)) =>
          r := RunAll(acts, fuel - 1);
        case List(Alternative(acts)) =>
          if |acts| == 0 {
            r := Err(EmptyAlternative);
          } else {
            r := ProcessAction(acts[hooks.pick(|acts|) % |acts|], fuel - 1);
          }
      }
    }

    /** Production and consumption: store the condition, or the rules of the alias it names and then its case rules. */
    method Produce(ac: AtomicCondition, value: ActivationStatus, overrideEntries: bool, fuel: nat) returns (r: Result<bool, Failure>)
      modifies this
      ensures (State(), r) == ProduceSpec(old(State()), hooks, ac, value, overrideEntries, fuel)
      decreases fuel, 2
    {
      var found := AliasRules(State(), ac, None);
      if found.Err? {
        r := StoreAtomicCondition(ac, value, None, true, fuel);
      } else {
        var (rules, path) := found.value;
        r := StoreAtomicCondition(AtomicCondition.Compound(Compound.Compound(rules, None)), value, Some(path), overrideEntries, fuel);
        if r.Ok? {
          r := ProcessRules(CaseRules(rules), r.value, fuel);
        }
      }
    }

    /** Every action of a list run in order, then the conjunction of their results. */
    method RunAll(acts: seq<Action>, fuel: nat) returns (r: Result<bool, Failure>)
      modifies this
      ensures State() == ActionsLoop(old(State()), hooks, acts, 0, [], fuel).0
      ensures r == ConjunctionOf(ActionsLoop(old(State()), hooks, acts, 0, [], fuel).1)
      decreases fuel, 1
    {
      var results: seq<TaskResult> := [];
      var i := 0;
      while i < |acts|
        invariant 0 <= i <= |acts|
        invariant ActionsLoop(old(State()), hooks, acts, 0, [], fuel) == ActionsLoop(State(), hooks, acts, i, results, fuel)
        decreases |acts| - i
      {
        var res := ProcessAction(acts[i], fuel);
        results := results + [Completed(res)];
        i := i + 1;
      }
      r := CollectConjunction(results);
    }
  }
}
