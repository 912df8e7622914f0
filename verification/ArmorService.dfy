/** The security policy service: policies under their names, each with its rule table. */
module ArmorService {
  import opened Options
  import opened Json
  import opened Armor

  // ── Names ──

  predicate NameChar(c: char) { 'a' <= c <= 'z' || '0' <= c <= '9' }

  /** `^[a-z](?:[-a-z0-9]{0,61}[a-z0-9])?$`. */
  predicate IsPolicyName(name: string) {
    && 1 <= |name| <= 63
    && 'a' <= name[0] <= 'z'
    && (forall i :: 0 <= i < |name| ==> NameChar(name[i]) || name[i] == '-')
    && NameChar(name[|name| - 1])
  }

  // ── Requests ──

  type Policies = map<string, Rules>

  /** `advancedOk` tells whether the body's advanced options pass their checks. */
  datatype Op =
    | Insert(name: string, body: Object, advancedOk: bool)
    | Delete(name: string)
    | Patch(name: string, body: Object, advancedOk: bool)
    | Add(name: string, rule: Object)
    | Remove(name: string, priority: int)
    | PatchOne(name: string, priority: int, rule: Object)

  predicate DescriptionOk(body: Object) {
    var d := Present(body, "description");
    d.None? || TextLength(d.value) <= DESCRIPTION_MAX
  }

  function InsertRules(checks: Checks, body: Object): Result<Rules> {
    var raws := if Present(body, "rules").Some? then Iterate(body["rules"]) else Ok([]);
    if raws.Err? then Err(raws.error) else ValidateAndNormalizeRules(checks, raws.value)
  }

  /** A patch that names no rules leaves them alone; `null` is not a list. */
  function PatchedRules(checks: Checks, rules: Rules, body: Object): Result<Rules> {
    if "rules" !in body then Ok(rules)
    else
      var raws := Iterate(body["rules"]);
      if raws.Err? then Err(raws.error) else ValidateAndNormalizeRules(checks, raws.value)
  }

  predicate Priorities(policies: Policies, op: Op) {
    op.name in policies ==> AllHavePriority(policies[op.name])
  }

  /** The rules of the named policy after an operation on it, None when it is gone. */
  function Outcome(checks: Checks, policies: Policies, op: Op): Result<Option<Rules>>
    requires Priorities(policies, op)
  {
    var name := op.name;
    match op
    case Insert(_, body, advancedOk) =>
      var rules := InsertRules(checks, body);
      if !IsPolicyName(name) || !DescriptionOk(body) then Err(InvalidArgument)
      else if rules.Err? then Err(rules.error)
      else if name in policies then Err(AlreadyExists)
      else if !advancedOk then Err(InvalidArgument)
      else Ok(Some(rules.value))
    case Delete(_) => if name in policies then Ok(None) else Err(NotFound)
    case Patch(_, body, advancedOk) =>
      if !DescriptionOk(body) then Err(InvalidArgument)
      else if name !in policies then Err(NotFound)
      else
        var rules := PatchedRules(checks, policies[name], body);
        if rules.Err? then Err(rules.error)
        else if !advancedOk then Err(InvalidArgument)
        else Ok(Some(rules.value))
    case Add(_, rule) =>
      if name !in policies then Err(NotFound)
      else
        var rules := AddRule(checks, policies[name], rule);
        if rules.Err? then Err(rules.error) else Ok(Some(rules.value))
    case Remove(_, priority) =>
      if priority == DEFAULT_RULE_PRIORITY then Err(InvalidArgument)
      else if name !in policies then Err(NotFound)
      else
        var rules := RemoveRule(policies[name], priority);
        if rules.Err? then Err(rules.error) else Ok(Some(rules.value))
    case PatchOne(_, priority, rule) =>
      if name !in policies then Err(NotFound)
      else
        var rules := PatchRule(checks, policies[name], priority, rule);
        if rules.Err? then Err(rules.error) else Ok(Some(rules.value))
  }

  function ErrorOf(outcome: Result<Option<Rules>>): Option<ArmorError> {
    if outcome.Ok? then None else Some(outcome.error)
  }

  ghost predicate AllGood(policies: Policies) { forall n :: n in policies ==> Good(policies[n]) }

  function Apply(checks: Checks, policies: Policies, op: Op): Policies
    requires Priorities(policies, op)
  {
    var o := Outcome(checks, policies, op);
    if o.Err? then policies
    else if o.value.None? then policies - {op.name}
    else policies[op.name := o.value.value]
  }

  // ── Every step ──

  lemma OutcomeIsGood(checks: Checks, policies: Policies, op: Op)
    requires AllGood(policies)
    ensures var o := Outcome(checks, policies, op);
            o.Ok? && o.value.Some? ==> Good(o.value.value)
  {
    hide Good, AddRule, RemoveRule, PatchRule, ValidateAndNormalizeRules;
    GoodHasPriorities(policies, op.name);
    match op
    case Insert(_, body, _) =>
      if InsertRules(checks, body).Ok? {
        ValidatedIsGood(checks, if Present(body, "rules").Some? then Iterate(body["rules"]).value else []);
      }
    case Delete(_) =>
    case Patch(name, body, _) =>
      if "rules" in body && Iterate(body["rules"]).Ok? { ValidatedIsGood(checks, Iterate(body["rules"]).value); }
    case Add(name, rule) => if name in policies { AddKeepsGood(checks, policies[name], rule); }
    case Remove(name, priority) => if name in policies { RemoveKeepsGood(policies[name], priority); }
    case PatchOne(name, priority, rule) =>
      if name in policies { PatchKeepsGood(checks, policies[name], priority, rule); }
  }

  lemma GoodHasPriorities(policies: Policies, name: string)
    requires AllGood(policies)
    ensures name in policies ==> AllHavePriority(policies[name])
  {}

  lemma ApplyKeepsGood(checks: Checks, policies: Policies, op: Op)
    requires AllGood(policies)
    ensures Priorities(policies, op)
    ensures AllGood(Apply(checks, policies, op))
  {
    hide Good, Outcome;
    GoodHasPriorities(policies, op.name);
    OutcomeIsGood(checks, policies, op);
  }

  ghost predicate HasDefaults(policies: Policies)
    requires AllGood(policies)
  {
    forall n :: n in policies ==> HasRule(policies[n], DEFAULT_RULE_PRIORITY)
  }

  /** The one edit that can lose a default rule: moving it to another priority. */
  predicate MovesDefault(checks: Checks, policies: Policies, op: Op) {
    && op.PatchOne? && op.priority == DEFAULT_RULE_PRIORITY && op.name in policies
    && AllHavePriority(policies[op.name])
    && HasRule(policies[op.name], DEFAULT_RULE_PRIORITY)
    && PatchRule(checks, policies[op.name], op.priority, op.rule).Ok?
    && var patched := policies[op.name][IndexOf(policies[op.name], DEFAULT_RULE_PRIORITY)] + op.rule;
       HasPriority(patched) && Priority(patched) != DEFAULT_RULE_PRIORITY
  }

  lemma DefaultMoved(checks: Checks, rules: Rules, raw: Object)
    requires Good(rules) && HasRule(rules, DEFAULT_RULE_PRIORITY)
    requires PatchRule(checks, rules, DEFAULT_RULE_PRIORITY, raw).Ok?
    ensures var patched := rules[IndexOf(rules, DEFAULT_RULE_PRIORITY)] + raw;
            var r := PatchRule(checks, rules, DEFAULT_RULE_PRIORITY, raw).value;
            && HasPriority(patched) && AllHavePriority(r)
            && (HasRule(r, DEFAULT_RULE_PRIORITY) <==> Priority(patched) == DEFAULT_RULE_PRIORITY)
  {
    hide HasPriority, Priority, RuleError, StoredRule, ForbiddenTransition, IndexOf;
    var i := IndexOf(rules, DEFAULT_RULE_PRIORITY);
    var r := PatchRule(checks, rules, DEFAULT_RULE_PRIORITY, raw).value;
    var patched := ValidateSingleRule(checks, rules[i] + raw).value;
    assert r == Replaced(rules, DEFAULT_RULE_PRIORITY, patched);
    assert r[i] == patched;
    assert forall j :: 0 <= j < |rules| && j != i ==> Priority(r[j]) != DEFAULT_RULE_PRIORITY;
  }

  /** An operation keeps every policy's default rule exactly when it is not that edit. */
  lemma DefaultsKeptExactly(checks: Checks, policies: Policies, op: Op)
    requires AllGood(policies) && HasDefaults(policies)
    ensures Priorities(policies, op)
    ensures AllGood(Apply(checks, policies, op))
    ensures HasDefaults(Apply(checks, policies, op)) <==> !MovesDefault(checks, policies, op)
  {
    hide Outcome, MovesDefault, HasPriority, Priority, HasRule, Good;
    ApplyKeepsGood(checks, policies, op);
    GoodHasPriorities(policies, op.name);
    var o := Outcome(checks, policies, op);
    if o.Ok? && o.value.Some? {
      OutcomeDefault(checks, policies, op);
      var next := Apply(checks, policies, op);
      assert next == policies[op.name := o.value.value];
      assert forall n :: n in policies && n != op.name ==> next[n] == policies[n];
      assert HasDefaults(next) <==> HasRule(next[op.name], DEFAULT_RULE_PRIORITY);
    } else {
      NoOutcome(checks, policies, op);
    }
  }

  lemma NoOutcome(checks: Checks, policies: Policies, op: Op)
    requires AllGood(policies)
    requires Priorities(policies, op)
    requires Outcome(checks, policies, op).Err? || Outcome(checks, policies, op).value.None?
    ensures !MovesDefault(checks, policies, op)
  {
    hide AddRule, RemoveRule, PatchRule, ValidateAndNormalizeRules, IndexOf, HasPriority, Priority, HasRule, Good;
  }

  lemma OutcomeDefault(checks: Checks, policies: Policies, op: Op)
    requires AllGood(policies) && HasDefaults(policies)
    requires Priorities(policies, op)
    requires Outcome(checks, policies, op).Ok? && Outcome(checks, policies, op).value.Some?
    ensures var rules := Outcome(checks, policies, op).value.value;
            && AllHavePriority(rules)
            && (HasRule(rules, DEFAULT_RULE_PRIORITY) <==> !MovesDefault(checks, policies, op))
  {
    hide AddRule, RemoveRule, PatchRule, ValidateAndNormalizeRules, IndexOf, HasPriority, Priority, HasRule, Good;
    match op
    case Insert(_, body, _) =>
      ValidatedIsGood(checks, if Present(body, "rules").Some? then Iterate(body["rules"]).value else []);
      GoodPriorities(Outcome(checks, policies, op).value.value);
    case Delete(_) =>
    case Patch(name, body, _) =>
      if "rules" in body {
        ValidatedIsGood(checks, Iterate(body["rules"]).value);
        GoodPriorities(Outcome(checks, policies, op).value.value);
      }
    case Add(name, rule) =>
      AddKeepsGood(checks, policies[name], rule);
      GoodPriorities(Outcome(checks, policies, op).value.value);
    case Remove(name, priority) =>
      RemoveKeepsGood(policies[name], priority);
      GoodPriorities(Outcome(checks, policies, op).value.value);
    case PatchOne(name, priority, rule) =>
      PatchKeepsGood(checks, policies[name], priority, rule);
      GoodPriorities(Outcome(checks, policies, op).value.value);
      if priority == DEFAULT_RULE_PRIORITY { DefaultMoved(checks, policies[name], rule); }
  }

  lemma GoodPriorities(rules: Rules)
    requires Good(rules)
    ensures AllHavePriority(rules)
  {}

  // ── Every run ──

  ghost function Run(checks: Checks, ops: seq<Op>): (p: Policies)
    ensures AllGood(p)
  {
    if ops == [] then map[]
    else
      var before := Run(checks, ops[..|ops| - 1]);
      ApplyKeepsGood(checks, before, ops[|ops| - 1]);
      Apply(checks, before, ops[|ops| - 1])
  }

  /** After any run, every policy's priorities are in range and pairwise distinct. */
  lemma PrioritiesStayDistinct(checks: Checks, ops: seq<Op>, name: string, i: nat, j: nat)
    requires name in Run(checks, ops) && i < j < |Run(checks, ops)[name]|
    ensures var rules := Run(checks, ops)[name];
            && HasPriority(rules[i]) && HasPriority(rules[j])
            && 0 <= Priority(rules[i]) <= DEFAULT_RULE_PRIORITY
            && Priority(rules[i]) != Priority(rules[j])
  {
    hide Run;
    assert Good(Run(checks, ops)[name]);
  }

  /** And every policy has its default rule, as long as no edit moves one away. */
  lemma {:induction false} DefaultsStay(checks: Checks, ops: seq<Op>)
    requires forall i :: 0 <= i < |ops| ==> !MovesDefault(checks, Run(checks, ops[..i]), ops[i])
    ensures HasDefaults(Run(checks, ops))
  {
    hide MovesDefault, Apply, Run;
    if ops != [] {
      hide HasDefaults;
      var n := |ops| - 1;
      var before := ops[..n];
      assert forall i :: 0 <= i < n ==> before[i] == ops[i] && before[..i] == ops[..i];
      DefaultsStay(checks, before);
      assert before + [ops[n]] == ops;
      OneMoreOp(checks, before, ops[n]);
      DefaultsKeptExactly(checks, Run(checks, before), ops[n]);
    } else {
      NoOps(checks);
    }
  }

  /** Moving the default rule is accepted: a policy without one is two requests away. */
  lemma DefaultCanBeMoved(checks: Checks)
    requires checks.matchOk(DEFAULT_MATCH)
    ensures var move := PatchOne("p", DEFAULT_RULE_PRIORITY, map["priority" := Num(5.0)]);
            !HasDefaults(Run(checks, [Insert("p", map[], true), move]))
  {
    hide HasDefaults, MovesDefault, Run, Apply;
    var insert, move := Insert("p", map[], true), PatchOne("p", DEFAULT_RULE_PRIORITY, map["priority" := Num(5.0)]);
    FreshPolicy(checks);
    var newborn := map["p" := [DefaultRule()]];
    NoOps(checks);
    OneMoreOp(checks, [], insert);
    OneMoreOp(checks, [insert], move);
    assert [] + [insert] == [insert] && [insert] + [move] == [insert, move];
    FreshHasDefault(newborn);
    MoveIsAccepted(checks, newborn);
    DefaultsKeptExactly(checks, newborn, move);
  }

  lemma NoOps(checks: Checks)
    ensures Run(checks, []) == map[]
  {}

  lemma OneMoreOp(checks: Checks, ops: seq<Op>, op: Op)
    ensures Priorities(Run(checks, ops), op)
    ensures Run(checks, ops + [op]) == Apply(checks, Run(checks, ops), op)
  {
    hide Apply, Outcome, Good;
    assert (ops + [op])[..|ops + [op]| - 1] == ops;
    ApplyKeepsGood(checks, Run(checks, ops), op);
  }

  lemma FreshPolicy(checks: Checks)
    ensures Apply(checks, map[], Insert("p", map[], true)) == map["p" := [DefaultRule()]]
  {
    var body: Object := map[];
    assert Present(body, "rules").None? && Present(body, "description").None?;
    assert ValidateEach(checks, []) == Ok([]);
    assert [] + [DefaultRule()] == [DefaultRule()];
  }

  lemma FreshHasDefault(newborn: Policies)
    requires newborn == map["p" := [DefaultRule()]]
    ensures AllGood(newborn) && HasDefaults(newborn)
  {
    assert Priority([DefaultRule()][0]) == DEFAULT_RULE_PRIORITY;
  }

  lemma MoveIsAccepted(checks: Checks, newborn: Policies)
    requires checks.matchOk(DEFAULT_MATCH) && newborn == map["p" := [DefaultRule()]]
    ensures MovesDefault(checks, newborn, PatchOne("p", DEFAULT_RULE_PRIORITY, map["priority" := Num(5.0)]))
  {
    var rules := [DefaultRule()];
    var raw := map["priority" := Num(5.0)];
    assert Priority(rules[0]) == DEFAULT_RULE_PRIORITY && HasRule(rules, DEFAULT_RULE_PRIORITY);
    var patched := rules[0] + raw;
    assert patched["priority"] == Num(5.0) && HasPriority(patched) && Priority(patched) == 5;
    assert Present(patched, "action") == Some(Str("allow"))
      && Present(patched, "description") == Some(Str("default allow rule"));
    assert Present(patched, "match") == Some(DEFAULT_MATCH);
    assert RuleError(checks, patched).None?;
  }

  // ── As it is written ──

  method ValidateRules(checks: Checks, raws: seq<Value>) returns (result: Result<Rules>)
    ensures result == ValidateAndNormalizeRules(checks, raws)
  {
    hide ValidateSingleRule, HasPriority, Priority;
    var rules: Rules := [];
    for i := 0 to |raws|
      invariant ValidateEach(checks, raws[..i]) == Ok(rules)
    {
      assert raws[..i + 1][..i] == raws[..i];
      FailsOn(checks, raws, i + 1);
      if raws[i].Null? { return Err(TypeError); }
      var rule := ValidateSingleRule(checks, Fields(raws[i]));
      if rule.Err? { return Err(rule.error); }
      rules := rules + [rule.value];
    }
    assert raws[..|raws|] == raws;
    var priorities: set<int> := {};
    for i := 0 to |rules|
      invariant forall j :: 0 <= j < i ==> Priority(rules[j]) in priorities
      invariant forall p :: p in priorities ==> exists j :: 0 <= j < i && Priority(rules[j]) == p
      invariant forall j, k :: 0 <= j < k < i ==> Priority(rules[j]) != Priority(rules[k])
    {
      if Priority(rules[i]) in priorities { return Err(InvalidArgument); }
      priorities := priorities + {Priority(rules[i])};
    }
    if !HasRule(rules, DEFAULT_RULE_PRIORITY) { rules := rules + [DefaultRule()]; }
    return Ok(rules);
  }

  /** An error among the first rules is the error of them all. */
  lemma {:induction false} FailsOn(checks: Checks, raws: seq<Value>, n: nat)
    requires n <= |raws|
    ensures ValidateEach(checks, raws[..n]).Err? ==> ValidateEach(checks, raws) == ValidateEach(checks, raws[..n])
  {
    if n == |raws| {
      assert raws[..n] == raws;
    } else {
      var before := raws[..|raws| - 1];
      assert before[..n] == raws[..n];
      FailsOn(checks, before, n);
    }
  }

  class SecurityPolicyService {
    const checks: Checks
    var policies: Policies

    constructor (checks: Checks)
      ensures this.checks == checks && policies == map[]
    {
      this.checks := checks;
      policies := map[];
    }

    method AddRuleTo(name: string, raw: Object) returns (error: Option<ArmorError>)
      requires AllGood(policies)
      modifies this
      ensures AllGood(policies)
      ensures Priorities(old(policies), Add(name, raw)) && policies == Apply(checks, old(policies), Add(name, raw))
      ensures error == ErrorOf(Outcome(checks, old(policies), Add(name, raw)))
    {
      hide ValidateSingleRule, Good;
      ApplyKeepsGood(checks, policies, Add(name, raw));
      if name !in policies { return Some(NotFound); }
      var existing := policies[name];
      var newRule := ValidateSingleRule(checks, raw);
      if newRule.Err? { return Some(newRule.error); }
      var conflict := false;
      for i := 0 to |existing|
        invariant conflict <==> exists j :: 0 <= j < i && Priority(existing[j]) == Priority(newRule.value)
      {
        if Priority(existing[i]) == Priority(newRule.value) { conflict := true; }
      }
      if conflict { return Some(InvalidArgument); }
      policies := policies[name := existing + [newRule.value]];
      return None;
    }

    method RemoveRuleFrom(name: string, priority: int) returns (error: Option<ArmorError>)
      requires AllGood(policies)
      modifies this
      ensures AllGood(policies)
      ensures Priorities(old(policies), Remove(name, priority))
        && policies == Apply(checks, old(policies), Remove(name, priority))
      ensures error == ErrorOf(Outcome(checks, old(policies), Remove(name, priority)))
    {
      hide Good;
      ApplyKeepsGood(checks, policies, Remove(name, priority));
      if priority == DEFAULT_RULE_PRIORITY { return Some(InvalidArgument); }
      if name !in policies { return Some(NotFound); }
      var existing := policies[name];
      if !HasRule(existing, priority) { return Some(NotFound); }
      var kept: Rules := [];
      for i := 0 to |existing|
        invariant AllHavePriority(existing[..i]) && kept == Armor.Without(existing[..i], priority)
      {
        assert existing[..i + 1][..i] == existing[..i];
        if Priority(existing[i]) != priority { kept := kept + [existing[i]]; }
      }
      assert existing[..|existing|] == existing;
      policies := policies[name := kept];
      return None;
    }

    method PatchRuleOf(name: string, priority: int, raw: Object) returns (error: Option<ArmorError>)
      requires AllGood(policies)
      modifies this
      ensures AllGood(policies)
      ensures Priorities(old(policies), PatchOne(name, priority, raw))
      ensures policies == Apply(checks, old(policies), PatchOne(name, priority, raw))
      ensures error == ErrorOf(Outcome(checks, old(policies), PatchOne(name, priority, raw)))
    {
      hide ValidateSingleRule, Good, ForbiddenTransition;
      ApplyKeepsGood(checks, policies, PatchOne(name, priority, raw));
      if name !in policies { return Some(NotFound); }
      var rules := policies[name];
      if !HasRule(rules, priority) { return Some(NotFound); }
      var existing := rules[IndexOf(rules, priority)];
      if ForbiddenTransition(existing, raw) { return Some(FailedPrecondition); }
      var patched := ValidateSingleRule(checks, existing + raw);
      if patched.Err? { return Some(patched.error); }
      if Priority(patched.value) != priority && HasRule(rules, Priority(patched.value)) {
        return Some(InvalidArgument);
      }
      var next: Rules := [];
      for i := 0 to |rules|
        invariant next == Replaced(rules, priority, patched.value)[..i]
      {
        next := next + [if Priority(rules[i]) == priority then patched.value else rules[i]];
      }
      assert next == Replaced(rules, priority, patched.value);
      policies := policies[name := next];
      return None;
    }

    method ReplacePolicy(op: Op) returns (error: Option<ArmorError>)
      requires AllGood(policies) && (op.Insert? || op.Patch? || op.Delete?)
      modifies this
      ensures AllGood(policies)
      ensures Priorities(old(policies), op) && policies == Apply(checks, old(policies), op)
      ensures error == ErrorOf(Outcome(checks, old(policies), op))
    {
      hide Good, ValidateAndNormalizeRules, IsPolicyName;
      ApplyKeepsGood(checks, policies, op);
      if op.Delete? {
        if op.name !in policies { return Some(NotFound); }
        policies := policies - {op.name};
        return None;
      }
      if (op.Insert? && !IsPolicyName(op.name)) || !DescriptionOk(op.body) { return Some(InvalidArgument); }
      if op.Patch? && op.name !in policies { return Some(NotFound); }
      var rules: Rules := [];
      if op.Patch? && "rules" !in op.body {
        rules := policies[op.name];
      } else {
        var raws := if op.Insert? && Present(op.body, "rules").None? then Ok([]) else Iterate(op.body["rules"]);
        if raws.Err? { return Some(raws.error); }
        var validated := ValidateRules(checks, raws.value);
        if validated.Err? { return Some(validated.error); }
        rules := validated.value;
      }
      if op.Insert? && op.name in policies { return Some(AlreadyExists); }
      if !op.advancedOk { return Some(InvalidArgument); }
      policies := policies[op.name := rules];
      return None;
    }
  }
}
