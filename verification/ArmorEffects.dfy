/** What each request on security policies changes and answers. */
module ArmorEffects {
  import opened Options
  import opened Json
  import opened Armor
  import opened ArmorRules
  import opened ArmorService

  /** A letter first, then letters, digits and dashes, no dash at the end, 63 characters at most. */
  ghost predicate PolicyName(name: string) {
    && 1 <= |name| <= 63 && 'a' <= name[0] <= 'z' && name[|name| - 1] != '-'
    && forall i :: 0 <= i < |name| ==> 'a' <= name[i] <= 'z' || '0' <= name[i] <= '9' || name[i] == '-'
  }

  ghost predicate ShortDescription(body: Object) {
    forall v :: Present(body, "description") == Some(v) ==> TextLength(v) <= 2048
  }

  /** The rules a body lists, as `for ... of` runs over them; an insert may leave them out. */
  ghost predicate Lists(body: Object, raws: seq<Value>) {
    && Present(body, "rules").Some?
    && (body["rules"] == Arr(raws)
        || (body["rules"].Str? && |raws| == |body["rules"].s|
            && forall i :: 0 <= i < |raws| ==> raws[i] == Str([body["rules"].s[i]])))
  }

  ghost predicate ListOk(checks: Checks, raws: seq<Value>) {
    && (forall i :: 0 <= i < |raws| ==> !raws[i].Null? && Acceptable(checks, Fields(raws[i])))
    && forall i, j :: 0 <= i < j < |raws| ==> Get(Fields(raws[i]), "priority") != Get(Fields(raws[j]), "priority")
  }

  lemma ListsExactly(body: Object, raws: seq<Value>)
    ensures Lists(body, raws) <==> Present(body, "rules").Some? && Iterate(body["rules"]) == Ok(raws)
  {
    if Lists(body, raws) && body["rules"].Str? {
      assert Iterate(body["rules"]).value == raws;
    }
  }

  /** Whatever an operation does, it does to the policy it names. */
  lemma OthersStay(checks: Checks, policies: Policies, op: Op, n: string)
    requires Priorities(policies, op) && n != op.name
    ensures var next := Apply(checks, policies, op);
            (n in next <==> n in policies) && (n in policies ==> next[n] == policies[n])
  {
    hide Outcome;
  }

  /** An insert stores the rules listed, or the default rule alone, under a new and well-formed name. */
  lemma InsertExactly(checks: Checks, policies: Policies, op: Op, raws: seq<Value>)
    requires op.Insert? && Priorities(policies, op)
    requires if Present(op.body, "rules").None? then raws == [] else Lists(op.body, raws)
    ensures var o := Outcome(checks, policies, op);
            && (o.Ok? <==>
                  && PolicyName(op.name) && ShortDescription(op.body) && ListOk(checks, raws)
                  && op.name !in policies && op.advancedOk)
            && (o.Ok? ==>
                  var next := Apply(checks, policies, op);
                  op.name in next && ListFrom(checks, raws, next[op.name]))
            && (o == Err(AlreadyExists) <==>
                  && PolicyName(op.name) && ShortDescription(op.body) && ListOk(checks, raws) && op.name in policies)
  {
    hide Acceptable, ListFrom, ValidateAndNormalizeRules, TextLength;
    ListExactly(checks, raws);
    if Present(op.body, "rules").Some? { ListsExactly(op.body, raws); }
    DescriptionsExactly(op.body);
    NotExisting(checks, raws);
  }

  lemma DescriptionsExactly(body: Object)
    ensures DescriptionOk(body) <==> ShortDescription(body)
  {
    hide TextLength;
    if Present(body, "description").Some? {
      assert Present(body, "description") == Some(body["description"]);
    }
  }

  lemma {:induction false} NotExisting(checks: Checks, raws: seq<Value>)
    ensures ValidateAndNormalizeRules(checks, raws) != Err(AlreadyExists)
    ensures ValidateEach(checks, raws) != Err(AlreadyExists)
  {
    if raws != [] { NotExisting(checks, raws[..|raws| - 1]); }
  }

  /** A body that lists rules replaces them all, one that does not keeps them. */
  lemma PatchExactly(checks: Checks, policies: Policies, op: Op, raws: seq<Value>)
    requires op.Patch? && Priorities(policies, op)
    requires "rules" in op.body ==> Lists(op.body, raws)
    ensures var o := Outcome(checks, policies, op);
            && (o.Ok? <==>
                  && ShortDescription(op.body) && op.name in policies && op.advancedOk
                  && ("rules" in op.body ==> ListOk(checks, raws)))
            && (o.Ok? ==>
                  var next := Apply(checks, policies, op);
                  op.name in next
                  && if "rules" in op.body then ListFrom(checks, raws, next[op.name])
                     else next[op.name] == policies[op.name])
            && (o == Err(NotFound) <==> ShortDescription(op.body) && op.name !in policies)
  {
    hide Acceptable, ListFrom, ValidateAndNormalizeRules, TextLength;
    ListExactly(checks, raws);
    if "rules" in op.body { ListsExactly(op.body, raws); }
    DescriptionsExactly(op.body);
    NotMissing(checks, raws);
  }

  lemma {:induction false} NotMissing(checks: Checks, raws: seq<Value>)
    ensures ValidateAndNormalizeRules(checks, raws) != Err(NotFound)
    ensures ValidateEach(checks, raws) != Err(NotFound)
  {
    if raws != [] { NotMissing(checks, raws[..|raws| - 1]); }
  }

  /** Rules that cannot be iterated are turned down, `null` in a patch too. */
  lemma NotIterable(checks: Checks, policies: Policies, op: Op)
    requires (op.Insert? && Present(op.body, "rules").Some?) || (op.Patch? && "rules" in op.body)
    requires !op.body["rules"].Arr? && !op.body["rules"].Str? && Priorities(policies, op)
    ensures Outcome(checks, policies, op).Err? && Apply(checks, policies, op) == policies
  {
    hide ValidateAndNormalizeRules, TextLength;
  }

  lemma DeleteExactly(checks: Checks, policies: Policies, op: Op)
    requires op.Delete? && Priorities(policies, op)
    ensures Outcome(checks, policies, op).Ok? <==> op.name in policies
    ensures Apply(checks, policies, op).Keys == policies.Keys - {op.name}
    ensures op.name !in policies ==> Outcome(checks, policies, op) == Err(NotFound)
  {}

  /** Edits of one rule are those of the policy's list, and not found without the policy. */
  lemma EditsExactly(checks: Checks, policies: Policies, op: Op)
    requires (op.Add? || op.Remove? || op.PatchOne?) && Priorities(policies, op)
    ensures var o, next := Outcome(checks, policies, op), Apply(checks, policies, op);
            if op.Remove? && op.priority == 2147483647 then o == Err(InvalidArgument)
            else if op.name !in policies then o == Err(NotFound)
            else
              var edited :=
                if op.Add? then AddRule(checks, policies[op.name], op.rule)
                else if op.Remove? then RemoveRule(policies[op.name], op.priority)
                else PatchRule(checks, policies[op.name], op.priority, op.rule);
              if edited.Ok? then o == Ok(Some(edited.value)) && op.name in next && next[op.name] == edited.value
              else o == Err(edited.error) && next == policies
  {
    hide AddRule, RemoveRule, PatchRule;
  }
}
