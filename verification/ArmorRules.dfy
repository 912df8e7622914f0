/** Which rules are taken, what is stored of them, and what the edits of a list come to, field by field. */
module ArmorRules {
  import opened Options
  import opened Text
  import opened Json
  import opened Armor

  // ── One rule ──

  /** An action by name, a redirect with a target, or a denial with one of four status codes. */
  ghost predicate Action(a: string) {
    || a in {"allow", "deny", "redirect", "throttle", "rate_based_ban"}
    || (exists target :: a == "redirect(" + target)
    || (exists code :: AllDigits(code) && ToNat(code) in {403, 404, 429, 502} && a == "deny(" + code + ")")
  }

  lemma ActionsExactly(a: string)
    ensures IsRuleAction(a) <==> Action(a)
  {
    hide ToNat;
    if "redirect(" <= a { assert a == "redirect(" + a[9..]; }
    if |a| >= 6 && a[..5] == "deny(" && a[|a| - 1] == ')' { assert a == "deny(" + a[5..|a| - 1] + ")"; }
    if code :| AllDigits(code) && ToNat(code) in {403, 404, 429, 502} && a == "deny(" + code + ")" {
      assert a[5..|a| - 1] == code && a[..5] == "deny(";
    }
  }

  ghost predicate PriorityIs(raw: Object, p: int) { "priority" in raw && raw["priority"] == Num(p as real) }

  /** A priority is a whole number from 0 to 2^31 - 1. */
  lemma PrioritiesExactly(raw: Object)
    ensures HasPriority(raw) <==> exists p :: 0 <= p <= 0x7fff_ffff && PriorityIs(raw, p)
    ensures HasPriority(raw) ==> PriorityIs(raw, Priority(raw))
  {
    if HasPriority(raw) {
      assert PriorityIs(raw, raw["priority"].n.Floor);
    }
    if p :| 0 <= p <= 0x7fff_ffff && PriorityIs(raw, p) {
      assert (p as real).Floor == p;
    }
  }

  ghost predicate Limited(action: string) { action == "throttle" || action == "rate_based_ban" }

  /** The whole of what a rule must be. */
  ghost predicate Acceptable(checks: Checks, raw: Object) {
    && HasPriority(raw)
    && "action" in raw && raw["action"].Str? && Action(raw["action"].s)
    && (forall v :: Present(raw, "description") == Some(v) ==> TextLength(v) <= 2048)
    && (forall v :: Present(raw, "match") == Some(v) ==> checks.matchOk(v))
    && (Limited(raw["action"].s) ==>
          exists v :: Present(raw, "rateLimitOptions") == Some(v) && checks.rateLimitOk(raw["action"].s, v))
  }

  /** What is stored of it: its priority and action, its match normalised, five more members, and nothing else. */
  ghost predicate StoredFrom(checks: Checks, raw: Object, stored: Rule) {
    forall f: string :: Get(stored, f) ==
      if f == "priority" || f == "action" then Get(raw, f)
      else if f == "match" then
        (if Present(raw, f).Some? then Some(checks.normalizeMatch(raw[f])) else None)
      else if f in {"description", "rateLimitOptions", "headerAction", "redirectOptions", "preview"}
      then Present(raw, f)
      else None
  }

  lemma RuleExactly(checks: Checks, raw: Object)
    ensures ValidateSingleRule(checks, raw).Ok? <==> Acceptable(checks, raw)
    ensures ValidateSingleRule(checks, raw).Ok? ==> StoredFrom(checks, raw, ValidateSingleRule(checks, raw).value)
    ensures ValidateSingleRule(checks, raw) == Err(TypeError) <==>
      HasPriority(raw) && Present(raw, "action").Some? && !raw["action"].Str?
  {
    hide HasPriority, StoredRule, Acceptable, StoredFrom, TextLength;
    NoErrorExactly(checks, raw);
    if RuleError(checks, raw).None? { StoresExactly(checks, raw); }
  }

  lemma NoErrorExactly(checks: Checks, raw: Object)
    ensures RuleError(checks, raw).None? <==> Acceptable(checks, raw)
  {
    hide HasPriority, IsRuleAction, Action, TextLength;
    if "action" in raw && raw["action"].Str? { ActionsExactly(raw["action"].s); }
    NoEmptyAction();
    if Present(raw, "description").Some? {
      assert Present(raw, "description") == Some(raw["description"]);
    }
    if Present(raw, "match").Some? { assert Present(raw, "match") == Some(raw["match"]); }
    if Present(raw, "rateLimitOptions").Some? {
      assert Present(raw, "rateLimitOptions") == Some(raw["rateLimitOptions"]);
    }
  }

  lemma StoresExactly(checks: Checks, raw: Object)
    requires HasPriority(raw) && "action" in raw
    ensures StoredFrom(checks, raw, StoredRule(checks, raw))
  {}

  lemma NoEmptyAction()
    ensures !Action("")
  {}

  // ── Lists ──

  /** Every rule is stored in its place, and the default rule is added behind them unless one has its priority. */
  ghost predicate ListFrom(checks: Checks, raws: seq<Value>, rules: Rules) {
    && |raws| <= |rules| <= |raws| + 1
    && (forall i :: 0 <= i < |raws| ==>
          !raws[i].Null? && Acceptable(checks, Fields(raws[i])) && StoredFrom(checks, Fields(raws[i]), rules[i]))
    && (|rules| == |raws| + 1 ==>
          rules[|raws|] == map[
            "priority" := Num(2147483647.0), "action" := Str("allow"), "description" := Str("default allow rule"),
            "match" := Obj(map["versionedExpr" := Str("SRC_IPS_V1"),
                               "config" := Obj(map["srcIpRanges" := Arr([Str("*")])])])])
    && (|rules| == |raws| <==>
          exists i :: 0 <= i < |raws| && PriorityIs(Fields(raws[i]), 2147483647))
  }

  lemma {:induction false} EachExactly(checks: Checks, raws: seq<Value>)
    ensures ValidateEach(checks, raws).Ok? <==>
      forall i :: 0 <= i < |raws| ==> !raws[i].Null? && Acceptable(checks, Fields(raws[i]))
    ensures ValidateEach(checks, raws).Ok? ==>
      forall i :: 0 <= i < |raws| ==> StoredFrom(checks, Fields(raws[i]), ValidateEach(checks, raws).value[i])
  {
    hide Acceptable, StoredFrom, ValidateSingleRule;
    if raws != [] {
      var n := |raws| - 1;
      EachExactly(checks, raws[..n]);
      RuleExactly(checks, Fields(raws[n]));
    }
  }

  /** A list is taken exactly if all its rules are and no two have one priority. */
  lemma ListExactly(checks: Checks, raws: seq<Value>)
    ensures var r := ValidateAndNormalizeRules(checks, raws);
            && (r.Ok? <==>
                  && (forall i :: 0 <= i < |raws| ==> !raws[i].Null? && Acceptable(checks, Fields(raws[i])))
                  && forall i, j :: 0 <= i < j < |raws| ==>
                       Get(Fields(raws[i]), "priority") != Get(Fields(raws[j]), "priority"))
            && (r.Ok? ==> ListFrom(checks, raws, r.value))
  {
    hide Acceptable, StoredFrom, ValidateEach;
    EachExactly(checks, raws);
    var each := ValidateEach(checks, raws);
    if each.Ok? {
      forall i | 0 <= i < |raws|
        ensures PriorityIs(Fields(raws[i]), Priority(each.value[i]))
      {
        SamePriority(checks, Fields(raws[i]), each.value[i]);
      }
      hide HasPriority, Priority;
      assert DistinctPriorities(each.value) <==> forall i, j :: 0 <= i < j < |raws| ==>
        Get(Fields(raws[i]), "priority") != Get(Fields(raws[j]), "priority");
    }
  }

  lemma SamePriority(checks: Checks, raw: Object, stored: Rule)
    requires StoredFrom(checks, raw, stored) && HasPriority(stored)
    ensures PriorityIs(raw, Priority(stored))
  {
    PrioritiesExactly(stored);
    assert Get(stored, "priority") == Get(raw, "priority");
  }

  // ── Edits ──

  /** An added rule comes last as it is stored, unless it is not acceptable or its priority is taken. */
  lemma AddExactly(checks: Checks, rules: Rules, raw: Object)
    requires AllHavePriority(rules)
    ensures var r := AddRule(checks, rules, raw);
            && (r.Ok? <==> Acceptable(checks, raw) && !HasRule(rules, Priority(raw)))
            && (r.Ok? ==>
                  && |r.value| == |rules| + 1 && r.value[..|rules|] == rules
                  && StoredFrom(checks, raw, r.value[|rules|]))
  {
    hide HasPriority, Priority, StoredFrom, ValidateSingleRule;
    RuleExactly(checks, raw);
  }

  /**
   * A patch replaces the one rule of that priority by what is stored of its members overridden by the
   * patch's. It is refused when there is none, when it turns a ban into a throttle, when the outcome is
   * not acceptable, and when it moves the rule to a priority that is taken.
   */
  lemma PatchExactly(checks: Checks, rules: Rules, priority: int, raw: Object, i: nat)
    requires Good(rules) && i < |rules| && Priority(rules[i]) == priority
    ensures var r := PatchRule(checks, rules, priority, raw);
            var merged := rules[i] + raw;
            && (r.Ok? <==>
                  && !(Get(rules[i], "action") == Some(Str("rate_based_ban"))
                       && Get(raw, "action") == Some(Str("throttle")))
                  && Acceptable(checks, merged)
                  && (Priority(merged) == priority || !HasRule(rules, Priority(merged))))
            && (r.Ok? ==>
                  && |r.value| == |rules| && StoredFrom(checks, merged, r.value[i])
                  && forall j :: 0 <= j < |rules| && j != i ==> r.value[j] == rules[j])
  {
    hide HasPriority, Priority, StoredFrom, ValidateSingleRule;
    RuleExactly(checks, rules[i] + raw);
    assert HasRule(rules, priority);
    var k := IndexOf(rules, priority);
    assert k == i;
  }

  /** A patch of a priority no rule has is not found; a removal too, and the default rule is never removed. */
  lemma MissingExactly(checks: Checks, rules: Rules, priority: int, raw: Object)
    requires AllHavePriority(rules)
    ensures PatchRule(checks, rules, priority, raw) == Err(NotFound) <==> !HasRule(rules, priority)
    ensures RemoveRule(rules, priority).Ok? <==> HasRule(rules, priority) && priority != 2147483647
    ensures RemoveRule(rules, priority) == Err(NotFound) <==> !HasRule(rules, priority) && priority != 2147483647
  {
    hide HasPriority, Priority, StoredRule, IndexOf;
  }
}
