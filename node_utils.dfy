/**
 * The node's helpers (crates/cl0_node/src/utils.rs): folding a set of
 * statuses into one, the conjunction of the results of spawned tasks, the
 * tree of alias namespaces that compounds store their rules in, and
 * splitting a path into head and tail.
 */
module NodeUtils {
  import opened Wrappers
  import opened Ast
  import opened NodeTypes

  // ---------------------------------------------------- status of a set

  /**
   * The status of a set of statuses: an error when any is `Conflict`
   * (even beside `False`) or when there is none; otherwise `True` exactly
   * when all are `True`.
   */
  function OverallStatusFromSet(statuses: set<ActivationStatus>): (r: Result<ActivationStatus, Failure>)
    ensures r.Err? <==> Conflict in statuses || statuses == {}
    ensures r.Err? ==> r.error == (if Conflict in statuses then OverallUnknown else NoValidStatus)
    ensures r.Ok? ==> r.value in statuses
    ensures r.Ok? ==> (r.value == True <==> forall s :: s in statuses ==> s == True)
  {
    if Conflict in statuses then Err(OverallUnknown)
    else if False in statuses then Ok(False)
    else
      assert forall s :: s in statuses ==> s == True by {
        forall s | s in statuses
          ensures s == True
        {
          assert s.True? || s.False? || s.Conflict?;
        }
      }
      if True in statuses then Ok(True) else Err(NoValidStatus)
  }

  /** The overall status is the conjunction of the booleans the statuses stand for. */
  lemma OverallIsConjunction(statuses: set<ActivationStatus>)
    requires Conflict !in statuses && statuses != {}
    ensures ToBool(OverallStatusFromSet(statuses).value) == Ok(forall s :: s in statuses ==> ToBool(s) == Ok(true))
  {
  }

  // ------------------------------------------------ joined task results

  /** What awaiting a spawned task gives: the task's own result, or a join error. */
  datatype TaskResult = Completed(result: Result<bool, Failure>) | Aborted

  predicate Succeeded(t: TaskResult)
  {
    t.Completed? && t.result.Ok?
  }

  /** The error a failed task stands for. */
  function TaskError(t: TaskResult): Failure
    requires !Succeeded(t)
  {
    if t.Aborted? then JoinFailed else t.result.error
  }

  /**
   * The conjunction of the results in order: the first error if there is
   * one, otherwise whether every result is `true` (so `true` for none).
   */
  function ConjunctionOf(ts: seq<TaskResult>): (r: Result<bool, Failure>)
    ensures r.Ok? <==> forall i :: 0 <= i < |ts| ==> Succeeded(ts[i])
    ensures r.Ok? ==> (r.value <==> forall i :: 0 <= i < |ts| ==> ts[i].result.value)
    ensures r.Err? ==> exists i :: (0 <= i < |ts| && !Succeeded(ts[i]) && r.error == TaskError(ts[i])
      && forall j :: 0 <= j < i ==> Succeeded(ts[j]))
  {
    if |ts| == 0 then Ok(true)
    else if !Succeeded(ts[0]) then Err(TaskError(ts[0]))
    else
      match ConjunctionOf(ts[1..])
      case Err(e) =>
        var k :| 0 <= k < |ts| - 1 && !Succeeded(ts[1..][k]) && e == TaskError(ts[1..][k])
          && forall j :: 0 <= j < k ==> Succeeded(ts[1..][j]);
        assert !Succeeded(ts[k + 1]) && forall j :: 0 <= j < k + 1 ==> Succeeded(ts[j]);
        Err(e)
      case Ok(b) =>
        assert (forall i :: 0 <= i < |ts| ==> Succeeded(ts[i]));
        assert b <==> forall i :: 1 <= i < |ts| ==> ts[i].result.value;
        Ok(ts[0].result.value && b)
  }

  /**
   * `collect_conjunction`: `overall` starts true and takes the AND of each
   * result in turn; the first error is returned at once.
   */
  method CollectConjunction(ts: seq<TaskResult>) returns (r: Result<bool, Failure>)
    ensures r == ConjunctionOf(ts)
  {
    var overall := true;
    var i := 0;
    while i < |ts|
      invariant 0 <= i <= |ts|
      invariant forall j :: 0 <= j < i ==> Succeeded(ts[j])
      invariant overall <==> forall j :: 0 <= j < i ==> ts[j].result.value
      decreases |ts| - i
    {
      match ts[i] {
        case Aborted =>
          return Err(JoinFailed);
        case Completed(inner) =>
          match inner {
            case Ok(v) =>
              overall := overall && v;
            case Err(e) =>
              return Err(e);
          }
      }
      i := i + 1;
    }
    return Ok(overall);
  }

  // ------------------------------------------------- alias namespaces

  /** A namespace: its rules, and named sub-namespaces. */
  datatype Namespace = Namespace(subNamespaces: map<string, Namespace>, rules: seq<Rule>)

  /** A namespace with no rules and no sub-namespaces. */
  function NewNamespace(): (ns: Namespace)
    ensures ns.rules == [] && ns.subNamespaces == map[]
  {
    Namespace(map[], [])
  }

  /** The rules at `path` below `ns`, or an error naming the first step that has no namespace. */
  function GetRules(ns: Namespace, path: seq<string>): (r: Result<seq<Rule>, Failure>)
    ensures path == [] ==> r == Ok(ns.rules)
    ensures path != [] && path[0] !in ns.subNamespaces ==> r == Err(NoMatchingNamespace(path[0]))
    ensures path != [] && path[0] in ns.subNamespaces ==> r == GetRules(ns.subNamespaces[path[0]], path[1..])
    decreases path
  {
    if path == [] then Ok(ns.rules)
    else if path[0] in ns.subNamespaces then GetRules(ns.subNamespaces[path[0]], path[1..])
    else Err(NoMatchingNamespace(path[0]))
  }

  predicate NoDuplicates(rs: seq<Rule>)
  {
    forall i, j :: 0 <= i < j < |rs| ==> rs[i] != rs[j]
  }

  /**
   * `combined` after the loop of `create_rules`: the prior rules, then each
   * new rule that is not already there, in order.
   */
  function UnionRules(prior: seq<Rule>, added: seq<Rule>): (combined: seq<Rule>)
    ensures |combined| >= |prior| && combined[..|prior|] == prior
    ensures forall x :: x in combined <==> x in prior || x in added
    ensures NoDuplicates(prior) ==> NoDuplicates(combined)
    decreases |added|
  {
    if added == [] then prior
    else UnionRules(if added[0] in prior then prior else prior + [added[0]], added[1..])
  }

  /** The union of rules each applied in turn. */
  lemma {:induction false} UnionStep(prior: seq<Rule>, added: seq<Rule>, i: nat)
    requires i < |added|
    ensures UnionRules(prior, added[..i + 1])
      == (if added[i] in UnionRules(prior, added[..i]) then UnionRules(prior, added[..i]) else UnionRules(prior, added[..i]) + [added[i]])
    decreases i
  {
    if i > 0 {
      var next := if added[0] in prior then prior else prior + [added[0]];
      assert added[..i + 1][1..] == added[1..][..i];
      assert added[..i][1..] == added[1..][..i - 1];
      UnionStep(next, added[1..], i - 1);
    } else {
      assert added[..1][1..] == [];
    }
  }

  /** The union loop of `create_rules`, growing `combined` in place. */
  method Combine(prior: seq<Rule>, added: seq<Rule>) returns (combined: seq<Rule>)
    ensures combined == UnionRules(prior, added)
  {
    combined := prior;
    var i := 0;
    while i < |added|
      invariant 0 <= i <= |added|
      invariant combined == UnionRules(prior, added[..i])
    {
      UnionStep(prior, added, i);
      if added[i] !in combined {
        combined := combined + [added[i]];
      }
      i := i + 1;
    }
    assert added[..i] == added;
  }

  /** The rules `create_rules` leaves at its target: the new ones, or the union with the prior. */
  function Replaced(prior: seq<Rule>, added: seq<Rule>, overrideEntries: bool): seq<Rule>
  {
    if overrideEntries then added else UnionRules(prior, added)
  }

  /**
   * The namespace after `create_rules(path, added, overrideEntries)`: every
   * missing namespace along `path` is created empty, and the target's
   * rules are replaced or united with `added`.
   */
  function Created(ns: Namespace, path: seq<string>, added: seq<Rule>, overrideEntries: bool): (ns': Namespace)
    ensures path == [] ==> ns'.subNamespaces == ns.subNamespaces
    ensures path != [] ==> ns'.rules == ns.rules && ns'.subNamespaces.Keys == ns.subNamespaces.Keys + {path[0]}
    decreases path
  {
    if path == [] then Namespace(ns.subNamespaces, Replaced(ns.rules, added, overrideEntries))
    else
      var child := if path[0] in ns.subNamespaces then ns.subNamespaces[path[0]] else NewNamespace();
      Namespace(ns.subNamespaces[path[0] := Created(child, path[1..], added, overrideEntries)], ns.rules)
  }

  /** What `create_rules` returns: the target's previous rules, or none when it had none. */
  function Previous(ns: Namespace, path: seq<string>): (prev: Option<seq<Rule>>)
    ensures prev.Some? ==> prev.value != [] && GetRules(ns, path) == Ok(prev.value)
    ensures prev.None? ==> GetRules(ns, path).Err? || GetRules(ns, path) == Ok([])
    decreases path
  {
    if path == [] then (if ns.rules == [] then None else Some(ns.rules))
    else if path[0] in ns.subNamespaces then Previous(ns.subNamespaces[path[0]], path[1..])
    else None
  }

  /**
   * `create_rules`: descends along `path`, creating missing namespaces, and
   * at the target replaces or unites the rules, returning the previous ones.
   */
  method CreateRules(ns: Namespace, path: seq<string>, added: seq<Rule>, overrideEntries: bool)
    returns (ns': Namespace, prev: Option<seq<Rule>>)
    ensures ns' == Created(ns, path, added, overrideEntries)
    ensures prev == Previous(ns, path)
    decreases path
  {
    if path == [] {
      var prior := ns.rules;
      var rules := added;
      if !overrideEntries {
        rules := Combine(prior, added);
      }
      ns' := Namespace(ns.subNamespaces, rules);
      prev := if prior == [] then None else Some(prior);
    } else {
      var first := path[0];
      var child := if first in ns.subNamespaces then ns.subNamespaces[first] else NewNamespace();
      var child';
      child', prev := CreateRules(child, path[1..], added, overrideEntries);
      ns' := Namespace(ns.subNamespaces[first := child'], ns.rules);
    }
  }

  /** The rules at `path` before a creation there: none when the path does not exist yet. */
  function RulesAt(ns: Namespace, path: seq<string>): seq<Rule>
  {
    match GetRules(ns, path)
    case Ok(rs) => rs
    case Err(_) => []
  }

  /** After `create_rules`, the rules at the same path are the replaced or united ones. */
  lemma {:induction false} CreateThenGet(ns: Namespace, path: seq<string>, added: seq<Rule>, overrideEntries: bool)
    ensures GetRules(Created(ns, path, added, overrideEntries), path) == Ok(Replaced(RulesAt(ns, path), added, overrideEntries))
    decreases path
  {
    if path != [] {
      var child := if path[0] in ns.subNamespaces then ns.subNamespaces[path[0]] else NewNamespace();
      CreateThenGet(child, path[1..], added, overrideEntries);
      assert RulesAt(ns, path) == RulesAt(child, path[1..]);
    }
  }

  /** With override, the rules read back at the path are exactly the ones stored. */
  lemma CreateOverrideThenGet(ns: Namespace, path: seq<string>, added: seq<Rule>)
    ensures GetRules(Created(ns, path, added, true), path) == Ok(added)
  {
    CreateThenGet(ns, path, added, true);
  }

  /** Every other path that held rules still holds the same rules after a creation. */
  lemma {:induction false} CreateKeepsOthers(ns: Namespace, path: seq<string>, added: seq<Rule>, overrideEntries: bool, other: seq<string>)
    requires other != path && GetRules(ns, other).Ok?
    ensures GetRules(Created(ns, path, added, overrideEntries), other) == GetRules(ns, other)
    decreases path
  {
    var ns' := Created(ns, path, added, overrideEntries);
    if path != [] && other != [] && other[0] == path[0] {
      var child := ns.subNamespaces[path[0]];
      CreateKeepsOthers(child, path[1..], added, overrideEntries, other[1..]);
      assert ns'.subNamespaces[path[0]] == Created(child, path[1..], added, overrideEntries);
    }
  }

  /** `get_parts`: the head, the tail and the whole of a non-empty path. */
  function GetParts<T>(path: seq<T>): (parts: (T, seq<T>, seq<T>))
    requires |path| > 0
    ensures [parts.0] + parts.1 == path && parts.2 == path
  {
    (path[0], path[1..], path)
  }
}
