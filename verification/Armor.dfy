/** Cloud Armor rule tables: validation, and the edits that keep a policy's rules apart by priority. */
module Armor {
  import opened Options
  import opened Text
  import opened Json

  datatype ArmorError = InvalidArgument | NotFound | AlreadyExists | FailedPrecondition | TypeError

  datatype Result<+T> = Ok(value: T) | Err(error: ArmorError)

  /** The checks on match expressions, address ranges and rate limits. */
  datatype Checks = Checks(matchOk: Value -> bool, normalizeMatch: Value -> Value, rateLimitOk: (string, Value) -> bool)

  type Rule = Object

  type Rules = seq<Rule>

  const DEFAULT_RULE_PRIORITY := 2147483647
  const DESCRIPTION_MAX := 2048

  // ── One rule ──

  predicate IsWhole(v: Value) { v.Num? && v.n.Floor as real == v.n }

  predicate HasPriority(r: Object) {
    && "priority" in r && IsWhole(r["priority"])
    && 0 <= r["priority"].n.Floor <= DEFAULT_RULE_PRIORITY
  }

  function Priority(r: Object): int
    requires HasPriority(r)
  {
    r["priority"].n.Floor
  }

  predicate IsNamedAction(a: string) {
    a == "allow" || a == "deny" || a == "redirect" || a == "throttle" || a == "rate_based_ban"
  }

  predicate IsDenyCode(code: nat) { code == 403 || code == 404 || code == 429 || code == 502 }

  predicate IsRuleAction(a: string) {
    || IsNamedAction(a)
    || "redirect(" <= a
    || (&& |a| >= 6 && a[..5] == "deny(" && a[|a| - 1] == ')'
        && AllDigits(a[5..|a| - 1]) && IsDenyCode(ToNat(a[5..|a| - 1])))
  }

  /** A member that is there and not null. */
  function Present(o: Object, field: string): Option<Value> {
    if field in o && !o[field].Null? then Some(o[field]) else None
  }

  function TextLength(v: Value): nat {
    if v.Str? then |v.s| else if v.Arr? then |v.items| else 0
  }

  /** Why a rule is turned down. */
  function RuleError(checks: Checks, raw: Object): Option<ArmorError> {
    var action, description := Present(raw, "action"), Present(raw, "description");
    var matcher, limits := Present(raw, "match"), Present(raw, "rateLimitOptions");
    if !HasPriority(raw) || action.None? || action.value == Str("") then Some(InvalidArgument)
    else if !action.value.Str? then Some(TypeError)
    else if !IsRuleAction(action.value.s) then Some(InvalidArgument)
    else if description.Some? && TextLength(description.value) > DESCRIPTION_MAX then Some(InvalidArgument)
    else if matcher.Some? && !checks.matchOk(matcher.value) then Some(InvalidArgument)
    else if (action.value.s == "throttle" || action.value.s == "rate_based_ban")
         && (limits.None? || !checks.rateLimitOk(action.value.s, limits.value)) then Some(InvalidArgument)
    else None
  }

  const KEPT_FIELDS: seq<string> := ["description", "rateLimitOptions", "headerAction", "redirectOptions", "preview"]

  /** The stored form of a valid rule: known fields only, with the match normalised. */
  function StoredRule(checks: Checks, raw: Object): Rule
    requires HasPriority(raw) && "action" in raw
  {
    var known := map f | f in KEPT_FIELDS && Present(raw, f).Some? :: raw[f];
    var named := known["priority" := raw["priority"]]["action" := raw["action"]];
    if Present(raw, "match").Some? then named["match" := checks.normalizeMatch(raw["match"])] else named
  }

  function ValidateSingleRule(checks: Checks, raw: Object): (r: Result<Rule>)
    ensures r.Ok? ==> HasPriority(r.value) && HasPriority(raw) && Priority(r.value) == Priority(raw)
    ensures r.Ok? ==> "action" in r.value && r.value["action"].Str? && IsRuleAction(r.value["action"].s)
  {
    var error := RuleError(checks, raw);
    if error.Some? then Err(error.value) else Ok(StoredRule(checks, raw))
  }

  // ── A whole list ──

  const DEFAULT_MATCH := Obj(map[
    "versionedExpr" := Str("SRC_IPS_V1"), "config" := Obj(map["srcIpRanges" := Arr([Str("*")])])])

  function DefaultRule(): (r: Rule)
    ensures HasPriority(r) && Priority(r) == DEFAULT_RULE_PRIORITY
  {
    map["priority" := Num(DEFAULT_RULE_PRIORITY as real), "action" := Str("allow"),
        "description" := Str("default allow rule"), "match" := DEFAULT_MATCH]
  }

  predicate AllHavePriority(rules: Rules) { forall i :: 0 <= i < |rules| ==> HasPriority(rules[i]) }

  predicate HasRule(rules: Rules, priority: int)
    requires AllHavePriority(rules)
  {
    exists i :: 0 <= i < |rules| && Priority(rules[i]) == priority
  }

  predicate DistinctPriorities(rules: Rules)
    requires AllHavePriority(rules)
  {
    forall i, j :: 0 <= i < j < |rules| ==> Priority(rules[i]) != Priority(rules[j])
  }

  function ValidateEach(checks: Checks, raws: seq<Value>): (r: Result<Rules>)
    ensures r.Ok? ==> |r.value| == |raws| && AllHavePriority(r.value)
  {
    if raws == [] then Ok([])
    else
      var n := |raws| - 1;
      var before := ValidateEach(checks, raws[..n]);
      if before.Err? then before
      else if raws[n].Null? then Err(TypeError)
      else
        var last := ValidateSingleRule(checks, Fields(raws[n]));
        if last.Err? then Err(last.error) else Ok(before.value + [last.value])
  }

  function ValidateAndNormalizeRules(checks: Checks, raws: seq<Value>): Result<Rules> {
    var rules := ValidateEach(checks, raws);
    if rules.Err? then rules
    else if !DistinctPriorities(rules.value) then Err(InvalidArgument)
    else if HasRule(rules.value, DEFAULT_RULE_PRIORITY) then rules
    else Ok(rules.value + [DefaultRule()])
  }

  /** Something `for ... of` runs over. */
  function Iterate(v: Value): Result<seq<Value>> {
    match v
    case Arr(items) => Ok(items)
    case Str(s) => Ok(seq(|s|, i requires 0 <= i < |s| => Str([s[i]])))
    case _ => Err(TypeError)
  }

  // ── Edits ──

  ghost predicate Good(rules: Rules) { AllHavePriority(rules) && DistinctPriorities(rules) }

  function AddRule(checks: Checks, rules: Rules, raw: Object): Result<Rules>
    requires AllHavePriority(rules)
  {
    var r := ValidateSingleRule(checks, raw);
    if r.Err? then Err(r.error)
    else if HasRule(rules, Priority(r.value)) then Err(InvalidArgument)
    else Ok(rules + [r.value])
  }

  function Without(rules: Rules, priority: int): (r: Rules)
    requires AllHavePriority(rules)
    ensures AllHavePriority(r) && |r| <= |rules|
  {
    if rules == [] then []
    else
      var n := |rules| - 1;
      Without(rules[..n], priority) + if Priority(rules[n]) == priority then [] else [rules[n]]
  }

  function RemoveRule(rules: Rules, priority: int): Result<Rules>
    requires AllHavePriority(rules)
  {
    if priority == DEFAULT_RULE_PRIORITY then Err(InvalidArgument)
    else if !HasRule(rules, priority) then Err(NotFound)
    else Ok(Without(rules, priority))
  }

  function IndexOf(rules: Rules, priority: int): (i: nat)
    requires AllHavePriority(rules) && HasRule(rules, priority)
    ensures i < |rules| && Priority(rules[i]) == priority
  {
    if Priority(rules[0]) == priority then 0
    else
      TailHas(rules, priority);
      1 + IndexOf(rules[1..], priority)
  }

  lemma TailHas(rules: Rules, priority: int)
    requires AllHavePriority(rules) && HasRule(rules, priority) && Priority(rules[0]) != priority
    ensures AllHavePriority(rules[1..]) && HasRule(rules[1..], priority)
  {
    var i :| 0 <= i < |rules| && Priority(rules[i]) == priority;
    assert rules[1..][i - 1] == rules[i];
  }

  function Replaced(rules: Rules, priority: int, rule: Rule): (r: Rules)
    requires AllHavePriority(rules)
    ensures |r| == |rules|
    ensures forall i :: 0 <= i < |rules| ==> r[i] == if Priority(rules[i]) == priority then rule else rules[i]
  {
    seq(|rules|, i requires 0 <= i < |rules| => if Priority(rules[i]) == priority then rule else rules[i])
  }

  /** A ban may not be turned into a throttle. */
  predicate ForbiddenTransition(existing: Rule, raw: Object) {
    && "action" in existing && existing["action"] == Str("rate_based_ban")
    && Present(raw, "action") == Some(Str("throttle"))
  }

  function PatchRule(checks: Checks, rules: Rules, priority: int, raw: Object): Result<Rules>
    requires AllHavePriority(rules)
  {
    if !HasRule(rules, priority) then Err(NotFound)
    else
      var existing := rules[IndexOf(rules, priority)];
      if ForbiddenTransition(existing, raw) then Err(FailedPrecondition)
      else
        var patched := ValidateSingleRule(checks, existing + raw);
        if patched.Err? then Err(patched.error)
        else if Priority(patched.value) != priority && HasRule(rules, Priority(patched.value)) then Err(InvalidArgument)
        else Ok(Replaced(rules, priority, patched.value))
  }

  // ── What every edit keeps ──

  lemma ValidatedIsGood(checks: Checks, raws: seq<Value>)
    ensures var r := ValidateAndNormalizeRules(checks, raws);
            r.Ok? ==> Good(r.value) && HasRule(r.value, DEFAULT_RULE_PRIORITY)
  {
    hide ValidateEach, HasPriority, Priority;
    var rules := ValidateEach(checks, raws);
    if rules.Ok? && !HasRule(rules.value, DEFAULT_RULE_PRIORITY) {
      var all := rules.value + [DefaultRule()];
      assert Priority(all[|rules.value|]) == DEFAULT_RULE_PRIORITY;
    }
  }

  lemma AddKeepsGood(checks: Checks, rules: Rules, raw: Object)
    requires Good(rules)
    ensures var r := AddRule(checks, rules, raw);
            r.Ok? ==> Good(r.value) && forall p :: HasRule(rules, p) ==> HasRule(r.value, p)
  {
    hide HasPriority, Priority, RuleError, StoredRule;
    var r := AddRule(checks, rules, raw);
    if r.Ok? {
      forall p | HasRule(rules, p) ensures HasRule(r.value, p) {
        var i :| 0 <= i < |rules| && Priority(rules[i]) == p;
        assert r.value[i] == rules[i];
      }
    }
  }

  lemma {:induction false} WithoutHas(rules: Rules, priority: int, r: Rule)
    requires AllHavePriority(rules)
    ensures r in Without(rules, priority) <==> r in rules && Priority(r) != priority
  {
    if rules != [] {
      hide HasPriority, Priority;
      var n := |rules| - 1;
      WithoutHas(rules[..n], priority, r);
      assert rules == rules[..n] + [rules[n]];
    }
  }

  lemma {:induction false} WithoutIsGood(rules: Rules, priority: int)
    requires Good(rules)
    ensures Good(Without(rules, priority))
  {
    if rules != [] {
      hide HasPriority, Priority;
      var n := |rules| - 1;
      var before := rules[..n];
      WithoutIsGood(before, priority);
      var w := Without(before, priority);
      forall i | 0 <= i < |w|
        ensures Priority(w[i]) != Priority(rules[n])
      {
        assert w[i] in w;
        WithoutHas(before, priority, w[i]);
        var j :| 0 <= j < n && before[j] == w[i];
        assert rules[j] == w[i];
      }
    }
  }

  /** A list cut at one place: every other rule stays, in order. */
  ghost predicate CutAt(before: Rules, after: Rules, i: int) {
    0 <= i < |before| && after == before[..i] + before[i + 1..]
  }

  lemma FrontIsGood(rules: Rules)
    requires Good(rules) && rules != []
    ensures Good(rules[..|rules| - 1])
    ensures !HasRule(rules[..|rules| - 1], Priority(rules[|rules| - 1]))
  {
    hide HasPriority, Priority;
    var before := rules[..|rules| - 1];
    assert forall j :: 0 <= j < |before| ==> before[j] == rules[j];
  }

  lemma {:induction false} WithoutCuts(rules: Rules, priority: int, i: nat)
    requires Good(rules) && i < |rules| && Priority(rules[i]) == priority
    ensures CutAt(rules, Without(rules, priority), i)
  {
    hide HasPriority, Priority, HasRule;
    var n := |rules| - 1;
    var before := rules[..n];
    FrontIsGood(rules);
    if i == n {
      WithoutAbsent(before, priority);
      assert Without(rules, priority) == before + [];
      assert rules[..n] + rules[n + 1..] == before;
    } else {
      assert before[i] == rules[i] && Priority(rules[n]) != priority;
      WithoutCuts(before, priority, i);
      assert Without(rules, priority) == Without(before, priority) + [rules[n]];
      hide Without;
      assert rules[..i] == before[..i] && rules[i + 1..] == before[i + 1..] + [rules[n]];
    }
  }

  /** A removal takes exactly the one rule of that priority; the others stay as they are, in order. */
  lemma RemoveKeepsGood(rules: Rules, priority: int)
    requires Good(rules)
    ensures var r := RemoveRule(rules, priority);
            r.Ok? ==> exists i :: CutAt(rules, r.value, i) && Priority(rules[i]) == priority
    ensures var r := RemoveRule(rules, priority);
            r.Ok? ==> Good(r.value) && forall p :: HasRule(r.value, p) <==> HasRule(rules, p) && p != priority
  {
    hide HasPriority, Priority;
    WithoutIsGood(rules, priority);
    if i :| 0 <= i < |rules| && Priority(rules[i]) == priority { WithoutCuts(rules, priority, i); }
    var w := Without(rules, priority);
    forall p
      ensures HasRule(w, p) <==> HasRule(rules, p) && p != priority
    {
      if HasRule(w, p) {
        var i :| 0 <= i < |w| && Priority(w[i]) == p;
        assert w[i] in w;
        WithoutHas(rules, priority, w[i]);
        var j :| 0 <= j < |rules| && rules[j] == w[i];
      }
      if HasRule(rules, p) && p != priority {
        var j :| 0 <= j < |rules| && Priority(rules[j]) == p;
        assert rules[j] in rules;
        WithoutHas(rules, priority, rules[j]);
        var i :| 0 <= i < |w| && w[i] == rules[j];
      }
    }
  }

  lemma PatchKeepsGood(checks: Checks, rules: Rules, priority: int, raw: Object)
    requires Good(rules)
    ensures var r := PatchRule(checks, rules, priority, raw);
            r.Ok? ==>
              && |r.value| == |rules| && Good(r.value)
              && (forall i :: 0 <= i < |rules| && Priority(rules[i]) != priority ==> r.value[i] == rules[i])
              && (HasRule(rules, DEFAULT_RULE_PRIORITY) && priority != DEFAULT_RULE_PRIORITY ==>
                    HasRule(r.value, DEFAULT_RULE_PRIORITY))
  {
    hide HasPriority, Priority, RuleError, StoredRule, IndexOf, ForbiddenTransition;
    var r := PatchRule(checks, rules, priority, raw);
    if r.Ok? && HasRule(rules, DEFAULT_RULE_PRIORITY) && priority != DEFAULT_RULE_PRIORITY {
      var i :| 0 <= i < |rules| && Priority(rules[i]) == DEFAULT_RULE_PRIORITY;
      assert Priority(r.value[i]) == DEFAULT_RULE_PRIORITY;
    }
  }

  // ── Add, then remove ──

  lemma {:induction false} WithoutAbsent(rules: Rules, priority: int)
    requires AllHavePriority(rules) && !HasRule(rules, priority)
    ensures Without(rules, priority) == rules
  {
    if rules != [] {
      hide HasPriority, Priority;
      var n := |rules| - 1;
      assert forall i :: 0 <= i < n ==> rules[..n][i] == rules[i];
      WithoutAbsent(rules[..n], priority);
      assert rules == rules[..n] + [rules[n]];
    }
  }

  /** Removing what was just added restores the list, unless it was the default rule: that stays. */
  lemma RemoveUndoesAdd(checks: Checks, rules: Rules, raw: Object)
    requires AllHavePriority(rules) && AddRule(checks, rules, raw).Ok?
    ensures var added := AddRule(checks, rules, raw).value;
            && AllHavePriority(added) && HasPriority(raw)
            && RemoveRule(added, Priority(raw)) ==
                 if Priority(raw) == DEFAULT_RULE_PRIORITY then Err(InvalidArgument) else Ok(rules)
  {
    var added := AddRule(checks, rules, raw).value;
    var p := Priority(raw);
    hide HasPriority, Priority, RuleError, StoredRule;
    assert added[..|added| - 1] == rules;
    assert Priority(added[|rules|]) == p && HasRule(added, p);
    WithoutAbsent(rules, p);
    assert Without(added, p) == rules + [] == rules;
  }
}
